# Verified model of the xDSL core

xDSL is an SSA compiler framework written in Python. This project models the parts of it whose
correctness is not visible in any single function, and proves what those parts promise together.

* **Interpreter** (`Ir`, `Semantics`, `Refinement`, `Dominance`, `Safety`, `Machine`, `MachineRuns`,
  `Handover`, `Interpreter`). `run_ssacfg_region` runs basic blocks, loops included, over linked
  single-assignment scopes. The class `Interpreter` does so with the same loops and the same linked
  objects, and is proved equal to a scoped semantics, which refines one flat environment. That
  semantics answers exactly what a machine ends with that takes one operation at a time, and whose
  steps are written out: which value each operand finds, which argument of a block is bound to what,
  where control goes, and which error ends a run. When definitions dominate uses, no run of any length
  misses a value or assigns one twice.
* **Rewriter** (`Substitution`, `Simulation`, `Replacement`, `Preservation`, `Passes`, `Nesting`,
  `StrengthReduction`, `LoopLowering`, `Rewriter`). `replace_op` and `erase_op`, in place, with nested
  regions. If the new operations compute the same values wherever the old one completes, whatever the
  control-flow graph returned it still returns, however much longer the new operations run, and so do
  all regions around it. If they keep to the same bounds, so does the graph. A replacement also keeps
  the SSA discipline, so a pass of any number of replacements, at any depth, preserves meaning;
  `StrengthReduction` is an instance, inside a loop, and `LoopLowering` one that turns an operation into
  a loop.
* **Pattern driver** (`Conservation`, `PatternRewriter`, `Measures`, `Walks`, `Offers`, `Coverage`,
  `NormalForms`, `Resolution`, `Directions`, `Factoring`, `Naming`, `TameWalks`, `WalkExamples`, `Doubling`,
  `Walker`, `Guards`, `TypeConversion`). The cursor loop over a block that is being edited, in all eight settings of its
  flags, with every replacement redirecting uses in the rest of the module: it terminates, does what a
  walk without a cursor does, and offers the pattern what that walk offers. After a recursive walk no
  operation at any depth still matches, exactly when no operation that was left alone comes to match
  later, by what is rewritten inside it or by what is redirected. For patterns that do not look at
  which values are used and take new names from what they replace, forward and reverse walks leave the
  same module; for others they need not. The ancestry guards keep every block outside the matched
  operation unchanged, and no call loses or doubles an operation. Type conversion computes the one
  solution of its bottom-up rules, and needs one application exactly when the converter is closed.
* **Front end** (`Frontend`, `CodeGeneration`, `GeneratedCode`, `Visitor`, `IntegerOverloads`). The
  visitor that turns Python expressions into SSA operations: it accepts exactly the expressions that the
  typing rules give a type, what it emits is in SSA form, and on the interpreter's scopes it evaluates to
  the value that Python's data model gives the expression, exactly if the operand order of `in` does not
  matter. `IntegerOverloads` is an instance on integers.
* **Verifiers and tables** (`Isolation`, `SymbolTables`, `Terminators`).
* **Printing and layout** (`TypePrinter`, `DenseLiterals`, `SsaNames`, `Subview`).

`Options`, `Shapes` and `TokenStreams` hold small shared definitions. Each file has one module of the same name,
except that `PatternRewriter.dfy` holds the module `PatternRewriters`.

## How to read the model

* **Runs.** The semantics takes a `limit`: a bound on the blocks entered in one run of a region and on
  the region runs one operation may ask for. A bounded run that does not answer is `OutOfLimit`. All
  theorems hold for every limit, and `LimitIrrelevant` shows that an answer does not depend on it.
  `Refines` compares regions by what they return under any bound. A `Pace` says how closely bounds are
  kept: `Eventually` lets the new run need a larger one, `Within` does not, and `InStep` also follows
  runs that stop at the bound.
* **Implementations of operations** are a parameter: a function that, from the operation, its inputs
  and the results of the region runs so far, finishes, runs another region, or raises.
* **Exceptions.** The interpreter does not pop scopes when an exception passes through it, so after a
  failed run the current scope is somewhere above the one it started in (`Above`).
* **Patterns** are functions from an operation to the calls they make. They look at the matched
  operation and what is inside it; `Modify` stands for every edit in place. A replacement redirects
  uses of the results in the whole module. In the model a walk of a part redirects what it holds at
  once, and hands the redirection to what is around it when it returns (`Walked`): until then no
  pattern looks there.
* **Names.** In the program a value is an object: once it has given way it is never brought in again.
  `replace_by` asserts that no used result gives way to itself, and a safe replacement raises if one
  gives way to a sibling. `Factoring.Proper` says this of the actions of a walk, where values are
  numbers. `Naming.Tame` is a condition on the pattern from which it follows: new names come from
  territories that the definitions of the operation own, and a value gives way only to one that may be
  used wherever it may.
* **Erasing.** `EraseMatched` is the safe erasure, which the caller may ask for only when the results
  are unused; an unsafe one is a replacement of the results by erased values.
* **Front end.** What Python methods return, and what the operations compute that overloads resolve
  to, is a parameter (`World`). `Faithful` ties them together by the name of the method only; which method an
  operator calls, and on which operand, is said by the data model (`Dunder`, `ComparePython`).

## Where the code and its promises part

* The recursive walk reaches a normal form exactly when the pattern is `Settled` and the redirections
  the walk makes are harmless (`NormalFormExactly`). Walking operations before their regions, a pattern
  that looks inside the operation can be left with a match (`OpsFirstCanMissMatches`). Walking
  backwards, so can a pattern that compares operands: folding `y = h(a)` to `a` after `f(a, y)` was
  passed leaves `f(a, a)` (`DirectionCanMatter`). A pattern that looks neither at which values are used
  nor, unless regions come first, inside the operation always reaches one (`EquivariantReachesNormalForm`).
* So the direction of a walk matters in general. It does not for patterns that do not look at which
  values are used, on walks that use names once (`DirectionIrrelevant`), as those of tame patterns do on
  every block of separate territories (`TameHasNoDirection`).
* `walk_reverse` is documented to reverse regions too; regions are walked in order in both directions.
* Two insertions after the matched operation are logged in the opposite of block order, so the
  reverse cursor lands on the wrong operation exactly when there are two or more (`CursorMissesExactly`).
* If the pattern edits the module operation itself, a recursive walk stops there (`RewriteModule`).
* Once the matched operation is erased it is its own top-level object, and the guards then admit every
  operation (`ErasedAdmitsAll`).
* `x in y` is translated to the operation of `__contains__` on `x` and then `y`, where Python calls the
  method of `y`. The generated code is right on all expressions exactly if, wherever `__contains__` is
  overloaded, it does not matter which operand is asked (`ComputesExactly`, with `InAsksTheLeft`).
* A negative dimension that does not stand for a dynamic one is printed with its sign, which the syntax
  of shapes does not have (`UnsignedExactly`).
* Leaving outputs of a type converter alone at the top level is not enough (`ShallowIsNotEnough`), and
  an empty array attribute counts as "no conversion" in the comparison that decides whether to replace
  an operation (`SecondVisitExactly`).
* `ensure_terminator` is idempotent exactly when the terminator class has the terminator trait
  (`Terminators.IdempotentExactly`).
* `insert_or_update` keeps names unique exactly when no operation without the symbol interface carries
  the name (`UniqueExactly`). In a reference path, a component that is not a symbol table is skipped
  over: the next component is looked up in the same table (`NonTableIsTransparent`).
* SSA names are unambiguous exactly when no hint in use is another hint followed by `_` and a number
  already given out (`FaithfulExactly`, `SafeHintsExactly`). Hints never clash with numbers, because the
  setter of `name_hint` refuses a leading digit.
* A dense attribute survives printing and parsing exactly under `Survives`: a listed literal needs a
  complete shape, a splat needs only as many entries as the type has.

## Model

| member | source | states |
|---|---|---|
| `Interpreter.InterpreterContext.Get` | xdsl/interpreter.py:371-380 | Look-up through the linked parents answers as the flattened chain does, and fails with "could not find" exactly when no scope holds the key |
| `Interpreter.InterpreterContext.Set` | xdsl/interpreter.py:382-392 | A key the scope already holds is refused and nothing changes; otherwise only that key is added |
| `Interpreter.Interpreter.PushScope` | xdsl/interpreter.py:457-461 | A fresh empty scope whose parent is the old current scope |
| `Interpreter.Interpreter.PopScope` | xdsl/interpreter.py:463-472 | Fails exactly at the root scope; otherwise the parent becomes current |
| `Interpreter.Interpreter.PopScopes` | xdsl/interpreter.py:569-571 | Popping as many scopes as were pushed ends at the very scope object the run started in |
| `Interpreter.Interpreter.GetValues` | xdsl/interpreter.py:442-446 | All values, or the first missing one as the error |
| `Interpreter.Interpreter.SetValues` | xdsl/interpreter.py:448-455 | Pairs are stored in order, up to the shorter list, and a second assignment fails |
| `Interpreter.Interpreter.RunImplementation` | xdsl/interpreter.py:548-548 | The implementation with its nested region runs gives the scoped outcome and, if it finishes, leaves the current scope as it was |
| `Interpreter.Interpreter.RunOperation` | xdsl/interpreter.py:547-564 | One operation: inputs, result count check, results stored, next move, as in the scoped semantics |
| `Interpreter.Interpreter.RunOperations` | xdsl/interpreter.py:546-567 | The inner loop equals the scoped run of the operations up to the first terminator |
| `Interpreter.Interpreter.RunBlock` | xdsl/interpreter.py:539-567 | One block runs in one new scope above the old one |
| `Interpreter.Interpreter.RunSsaCfgRegion` | xdsl/interpreter.py:523-572 | The outer loop equals the scoped run of the region and ends as the machine does, and on normal return the scope stack is exactly what it was on entry |
| `Interpreter.Interpreter.RunWellFormedRegion` | xdsl/interpreter.py:523-572 | On a well-formed region the mutable interpreter returns what the flat semantics returns, meets no SSA error, and restores its scopes and their contents |
| `MachineRuns.EndsExactly` | xdsl/interpreter.py:523-572 | What some bounded run over the scopes answers is exactly what the machine ends with that takes one operation at a time: the innermost scope gives each operand its value, argument `j` of a block entered is bound to argument `j` of the branch, region runs are asked for one after the other, and each error has its cause |
| `MachineRuns.EndsOnce` | xdsl/interpreter.py:523-572 | The machine ends in one way only |
| `Handover.BranchHandsOver` | xdsl/interpreter.py:538-567 | For any implementations, when the last operation of a block finishes with a branch, the run goes on with the operations of the successor it names, whose arguments hold the branch arguments in their order |
| `Handover.ScopedBranchHandsOver` | xdsl/interpreter.py:539-564 | Over scopes: in a new scope that holds those arguments and nothing else |
| `Handover.ReturnHandsBack` | xdsl/interpreter.py:556-560 | Returned values are what the region returns, in their order |
| `Handover.SumsUp` | xdsl/interpreter.py:538-567 | A loop that carries a counter and a sum returns n * (n + 1) / 2 |
| `Handover.ScopedSumsUp` | xdsl/interpreter.py:538-567 | And so it does over the scopes |
| `Refinement.ScopedRefinesFlat` | xdsl/interpreter.py:535-572 | A growing chain of single-assignment scopes returns what one overwriting environment returns, for every region, argument list, chain and limit |
| `Refinement.BlocksRefine` | xdsl/interpreter.py:538-567 | The same from every block entry of a run, so re-entering a block overwrites its old values |
| `Refinement.BlockRefines` | xdsl/interpreter.py:539-567 | After a block both environments answer every look-up alike |
| `Refinement.LimitIrrelevant` | xdsl/interpreter.py:538-567 | An answer reached under one bound is the answer under every larger bound |
| `Safety.BlocksSafe` | xdsl/interpreter.py:538-567 | Along any walk of the control-flow graph, every block reached finds the values that dominate it |
| `Safety.RegionSafe` | xdsl/interpreter.py:523-572 | When definitions dominate uses at every depth, no run of any length misses a value |
| `Safety.ScopedRegionSafe` | xdsl/interpreter.py:371-392 | Over the interpreter's own scopes neither "could not find" nor double assignment is reachable |
| `Substitution.SubstRegionCompose` | xdsl/ir/core.py:285-292 | Redirecting uses twice is redirecting once by the composed redirection, at every depth |
| `Substitution.RegionRedirected` | xdsl/ir/core.py:285-292 | A region whose uses are redirected to values holding the same contents returns the same results |
| `Substitution.RedirectionsAtOnce` | xdsl/rewriter.py:50-54 | Replacing results one after the other is one simultaneous redirection, each result to its own target |
| `Rewriter.RefusalIsJustified` | xdsl/ir/core.py:294-305 | The safe-erase check never refuses a request in which no deleted result is used |
| `Rewriter.EditedRegion.RedirectResults` | xdsl/rewriter.py:50-54 | The loop redirects every use in the region and in the new operations, or stops at a deleted result that is still used |
| `Rewriter.EditedRegion.ReplaceOp` | xdsl/rewriter.py:20-63 | Count mismatch is reported with nothing changed; success splices the new operations in place and redirects every use, result `j` to what is listed for it or else to result `j` of the last new operation, and a safe one leaves no use of an old result; a refusal, or a result replaced by itself, means the request was not clean |
| `Rewriter.NoUseLeft` | xdsl/rewriter.py:50-63 | When no result is replaced by a result, no use of one is left anywhere |
| `Rewriter.NothingLeftToErase` | xdsl/rewriter.py:56-63 | So an unsafe erasure then changes nothing more |
| `Rewriter.EditedRegion.EraseOp` | xdsl/rewriter.py:7-18 | The operation is gone; uses left over are reported, or moved to fresh erased values |
| `Preservation.BlockPreserved` | xdsl/rewriter.py:20-63 | Running a block after the replacement, under a bound that the pace allows, makes the same move and leaves every live value the same |
| `Preservation.BlocksPreserved` | xdsl/interpreter.py:538-567 | Runs of the old graph are followed by runs of the new one along every walk, through every loop, at the pace of the replacement |
| `Preservation.ReplacePreservesMeaning` | xdsl/rewriter.py:20-63 | Replacing an operation by operations that compute the same values wherever it completes, however long they run: whatever the region returned, for any arguments and environment, it still returns |
| `Preservation.ReplaceKeepsPace` | xdsl/rewriter.py:20-63 | If they do so within the same bounds, or also stop at a bound wherever it does, so does the region |
| `Simulation.RefinesExactly` | xdsl/interpreter.py:523-572 | Returning whatever another region returns is following each of its runs under some larger bound |
| `LoopLowering.ForRealizesCount` | xdsl/rewriter.py:20-63 | A loop over a counter computes what the operation it lowers does, wherever that completes |
| `LoopLowering.ForNeedsMore` | xdsl/interpreter.py:538-567 | Under no bound does it do so within that bound |
| `LoopLowering.LoweringPreservesMeaning` | xdsl/rewriter.py:20-63 | Still, wherever the operation stands, lowering it to the loop keeps what its region returns |
| `Passes.SameDominance` | xdsl/rewriter.py:50-63 | Replacing an operation that does not branch leaves dominance between blocks as it was |
| `Passes.TargetVisible` | xdsl/rewriter.py:50-54 | Every use, redirected or not, finds a value that dominates it afterwards |
| `Passes.RedirectedWellFormed` | xdsl/ir/core.py:285-292 | A nested region stays well formed when what it uses from outside is redirected to visible values |
| `Passes.ReplacedWellFormed` | xdsl/rewriter.py:20-63 | After a replacement definitions dominate uses again, at every depth |
| `Passes.ReplacedUnique` | xdsl/rewriter.py:56-63 | After a replacement every value is defined once |
| `Passes.PassPreservesMeaning` | xdsl/rewriter.py:20-63 | Any number of replacements, each by operations that compute the same values on the region as it then is, keeps the SSA discipline, and whatever the region returned it still returns |
| `Passes.LastStepLast` | xdsl/rewriter.py:20-63 | What a pass leaves is what its last replacement makes of what the ones before it left |
| `Passes.PassKeepsPace` | xdsl/rewriter.py:20-63 | The same at the pace of the steps, bound by bound |
| `Nesting.NestedSimulate` | xdsl/interpreter.py:523-572 | Regions that differ only in nested regions, each followed at some pace, are followed at that pace |
| `Nesting.PutThere` | xdsl/rewriter.py:20-63 | An edit at any depth is found there, and putting back what was there changes nothing |
| `Nesting.PutAgain` | xdsl/rewriter.py:20-63 | And a second edit there leaves what it alone would leave |
| `Nesting.ReplaceInsideKeepsPace` | xdsl/rewriter.py:20-63 | Replacing an operation at any depth keeps the runs of every region around it |
| `Nesting.RedirectedInside` | xdsl/ir/core.py:285-292 | Redirecting uses everywhere is redirecting them where the operation stands, if nothing else uses its results |
| `Nesting.PassInsidePreservesMeaning` | xdsl/rewriter.py:20-63 | A pass over a region at any depth keeps the discipline of the region around it, and whatever that returned it still returns |
| `StrengthReduction.ReductionPreservesMeaning` | xdsl/rewriter.py:20-63 | A concrete replacement inside a loop meets every condition, so the loop runs in step with what it was, however often it goes round |
| `Rewriter.OnlyUsedPartMatters` | xdsl/rewriter.py:50-54 | Redirections of values that nobody uses have no effect |
| `Rewriter.ReplaceOpPreservesMeaning` | xdsl/rewriter.py:20-63 | What the region returned it still returns, for exactly the redirection that `ReplaceOp` performs, unused results included |
| `Rewriter.PromiseKept` | xdsl/rewriter.py:39-54 | The loop over results makes each give way to the value listed for it, to that result of the last new operation if none are listed, or to a fresh value of its own if it is deleted |
| `Rewriter.ReplaceByLastPreservesMeaning` | xdsl/rewriter.py:39-63 | Without explicit results: if the last new operation leaves in its results what the old one left in its own, whatever the region returned it still returns |
| `Rewriter.EraseUnusedPreservesMeaning` | xdsl/rewriter.py:7-18 | Erasing an unused operation leaves every run that returns as it was, under the same bound, and an operation without regions also every run that stops at the bound |
| `PatternRewriters.PatternRewriter.InsertOpsBeforeMatched` | xdsl/pattern_rewriter.py:80-90 | The operations stand right in front of the matched one and end the log of those before it; nothing else changes |
| `PatternRewriters.PatternRewriter.InsertOpsAfterMatched` | xdsl/pattern_rewriter.py:92-102 | The latest insertion stands right behind the matched operation, and is logged last; nothing else changes |
| `PatternRewriters.PatternRewriter.EraseMatchedOp` | xdsl/pattern_rewriter.py:154-162 | The matched operation leaves the block and the log |
| `PatternRewriters.PatternRewriter.ReplaceMatchedOp` | xdsl/pattern_rewriter.py:180-223 | The new operations take the place of the matched one and are logged as before it; every use of a result, in the block and in the logs, goes to its target |
| `PatternRewriters.PatternRewriter.ModifyMatchedOp` | xdsl/pattern_rewriter.py:225-263 | An edit in place marks an action and leaves the neighbours alone |
| `PatternRewriters.PatternRewriter.InlineBlockBeforeMatched` | xdsl/pattern_rewriter.py:293-305 | The operations of the block, in order, stand right in front of the matched operation and are logged; that block and no other is empty; no operation, at any depth, is lost or doubled |
| `PatternRewriters.PatternRewriter.InlineBlockAfterMatched` | xdsl/pattern_rewriter.py:328-340 | The same behind it |
| `Conservation.InliningConserves` | xdsl/pattern_rewriter.py:293-340 | Operations taken out of a block inside an operation and put next to it all occur as often as before, counted at every depth |
| `PatternRewriters.PatternRewriter.MatchAndRewrite` | xdsl/pattern_rewriter.py:399-404 | A whole pattern: block, logs and redirection are those of its calls in order, and an action is reported exactly if there was a call |
| `PatternRewriters.OneAfterCallKeepsOrder` | xdsl/pattern_rewriter.py:372-388 | With at most one insertion after the operation, the affected-op log is in block order |
| `PatternRewriters.PerformShifted` | xdsl/pattern_rewriter.py:80-223 | A pattern's calls on an operation with redirected operands leave the redirected operations, in the block and in both logs |
| `Measures.AdditiveMeasures` | xdsl/pattern_rewriter.py:659-673 | A pattern whose every action loses total weight of operation codes terminates |
| `Walks.WalkAppendForward` | xdsl/pattern_rewriter.py:697-702 | Forwards a block is its front and then, redirected by that, its back |
| `Walks.WalkAppendReverse` | xdsl/pattern_rewriter.py:697-702 | Backwards it is its back and then, redirected by that, its front |
| `Walks.LogOrderFits` | xdsl/pattern_rewriter.py:678-684 | The logs list every operation the pattern left exactly once |
| `Coverage.EveryOperationOnce` | xdsl/pattern_rewriter.py:643-702 | Without recursion every operation to act on, at every depth, is acted on exactly once and no other, in both directions and with regions first or last |
| `Offers.OfferedForward` | xdsl/pattern_rewriter.py:675-702 | Without recursion, forwards, the pattern is offered exactly the operations of the block, once each and in order, each as what stands before it has redirected it, after its regions if those come first, and no operation that was added |
| `Offers.OfferedReverse` | xdsl/pattern_rewriter.py:675-702 | Backwards, the same from the end |
| `Offers.OfferedAppendForward` | xdsl/pattern_rewriter.py:643-702 | In every mode, what is offered of a block is what is offered of its front and then, redirected by that, of its back |
| `Offers.OfferedAppendReverse` | xdsl/pattern_rewriter.py:643-702 | Backwards, of its back and then of its front |
| `Offers.ActionsLogged` | xdsl/pattern_rewriter.py:653-658 | Whatever is offered and acted on is in the log of the walk |
| `NormalForms.WalkOpsNormal` | xdsl/pattern_rewriter.py:643-702 | The recursive walk ends with no operation at any depth still matching, if the pattern is settled and redirections are harmless |
| `NormalForms.NormalFormExactly` | xdsl/pattern_rewriter.py:643-702 | It does so on every block if and only if both hold, in each direction |
| `NormalForms.NormalIsFixed` | xdsl/pattern_rewriter.py:687-690 | A block in normal form is left as it is, in every mode, and nothing is redirected |
| `NormalForms.SteadyIsEnough` | xdsl/pattern_rewriter.py:643-702 | A condition on single operations that is enough: neither a lighter inside nor redirected operands make the pattern act on an operation it leaves alone |
| `NormalForms.EquivariantReachesNormalForm` | xdsl/pattern_rewriter.py:643-702 | A pattern that does not look at which values are used, nor inside the operation unless regions come first, reaches a normal form in both directions |
| `WalkExamples.OpsFirstCanMissMatches` | xdsl/pattern_rewriter.py:687-690 | A terminating pattern and a block on which the operations-first walk leaves an operation that matches |
| `WalkExamples.DirectionCanMatter` | xdsl/pattern_rewriter.py:180-203 | A terminating, settled pattern for which the forward walk leaves nothing and the reverse walk leaves an operation that a redirection has made match |
| `WalkExamples.FoldHasNoDirection` | xdsl/pattern_rewriter.py:643-702 | The folding half of that pattern alone meets every condition: it always reaches a normal form, and does the same to that block in both directions |
| `Resolution.ResolvesUnique` | xdsl/ir/core.py:285-292 | What a value has become after all replacements does not depend on the order in which they were made |
| `Directions.RawBeside` | xdsl/pattern_rewriter.py:643-702 | With redirections put off, a walk may take either end of a block first |
| `Factoring.FactoredWalk` | xdsl/pattern_rewriter.py:643-702 | For a pattern that does not look at which values are used, a walk in either direction leaves the redirection-free result with every use sent to the end of its replacements, and makes the same replacements |
| `Factoring.DirectionIrrelevant` | xdsl/pattern_rewriter.py:643-702 | So both directions leave the same block and redirect what is outside alike, if names are used once |
| `TameWalks.TidyOps` | xdsl/pattern_rewriter.py:643-702 | A walk of a tame pattern, in every mode, uses names once, leaves definitions in separate territories within those of the block, and uses below definitions |
| `TameWalks.TameHasNoDirection` | xdsl/pattern_rewriter.py:643-702 | A tame pattern that does not look at which values are used leaves the same block in both directions; all conditions are on the pattern and the block |
| `Doubling.DoubleHasNoDirection` | xdsl/pattern_rewriter.py:643-702 | A pattern that brings in a new value at each action is tame, so its direction does not matter in any mode |
| `Doubling.NoDoubleLeft` | xdsl/pattern_rewriter.py:643-702 | And its recursive walk leaves nothing it acts on, at any depth |
| `Walker.CursorMissesExactly` | xdsl/pattern_rewriter.py:661-673 | With several insertions after the operation the reverse cursor is wrong exactly from the second on, the forward one exactly if the operation was also erased with nothing in front |
| `Walker.CursorFollowsLog` | xdsl/pattern_rewriter.py:372-388 | In every case the cursor goes to where the first, or the last, operation of the log now stands, or past the visited one if nothing is logged |
| `Walker.AffectedEnd` | xdsl/pattern_rewriter.py:659-673 | Otherwise both cursors land on the near end of what the pattern put in place |
| `Walker.RewriteOp` | xdsl/pattern_rewriter.py:643-690 | One visit: what stands in the block afterwards with uses around it redirected, where the cursor goes, the redirection for what is outside, and the operation as the pattern was offered it |
| `Walker.ForwardAgain` | xdsl/pattern_rewriter.py:659-673 | After an action of a recursive forward walk, what is left is lighter and has the same target |
| `Walker.ReverseAgain` | xdsl/pattern_rewriter.py:659-673 | The same backwards |
| `Walker.RewriteAdded` | xdsl/pattern_rewriter.py:675-685 | Without recursion only the regions of what now stands there are walked, in the order of the logs, each redirecting uses in the others |
| `Walker.RewriteOpRegions` | xdsl/pattern_rewriter.py:692-702 | All regions of an operation reach the target of the walk, and the operation is redirected |
| `Walker.RewriteBlockForward` | xdsl/pattern_rewriter.py:697-702 | The forward cursor loop over the edited block terminates at the target, and offers the pattern exactly what the walk without a cursor offers, in that order |
| `Walker.RewriteBlockReverse` | xdsl/pattern_rewriter.py:697-702 | The reverse cursor loop does the same, from the end |
| `Walker.RewriteBlock` | xdsl/pattern_rewriter.py:697-702 | Either loop leaves what the walk without a cursor leaves, redirects what is outside as it does, and makes the same offers |
| `Walker.RewriteModule` | xdsl/pattern_rewriter.py:639-641 | Nothing below the module still matches if the pattern leaves the module alone, is settled and redirects harmlessly; if it edits the module, a recursive walk stops there |
| `Walker.GreedyActs` | xdsl/pattern_rewriter.py:604-609 | The greedy applier acts exactly when one of its patterns acts |
| `Walker.GreedyIsFirst` | xdsl/pattern_rewriter.py:604-609 | And then does what the first of them that acts does |
| `Walker.ApplyGreedily` | xdsl/pattern_rewriter.py:604-609 | The loop over patterns stops at that one |
| `Walker.GreedyNormalForAll` | xdsl/pattern_rewriter.py:604-609 | A normal form for the greedy applier is a normal form for every pattern in it |
| `Guards.GuardExact` | xdsl/pattern_rewriter.py:54-78 | The guard recursion holds exactly when the matched operation is an ancestor or the target itself, or the target is in another detached tree |
| `Guards.GuardsExactly` | xdsl/pattern_rewriter.py:54-78 | So for operations and regions; a block is admitted also if the matched operation stands in it |
| `Guards.ErasedAdmitsAll` | xdsl/pattern_rewriter.py:58-60 | For an erased matched operation the guard admits every operation |
| `Guards.CallKeepsOutside` | xdsl/pattern_rewriter.py:80-370 | One call that does not raise leaves the operation list of every outside block unchanged, and the block stays outside |
| `Guards.PatternFrame` | xdsl/pattern_rewriter.py:80-370 | So does any sequence of calls during which the matched operation stays under the module |
| `Guards.CallEdits` | xdsl/pattern_rewriter.py:80-370 | Inside, a call puts and removes the operations it is about where it says, and all others stay in their order |
| `Guards.RegionMoves` | xdsl/pattern_rewriter.py:360-370 | Moving the contents of a region gives its blocks to the new one and changes no other parent |
| `Guards.CallKeepsConsistent` | xdsl/ir/core.py:1370-1380 | Block lists and parent pointers agree after every call: each block lists its operations, each once |
| `Guards.PatternKeepsConsistent` | xdsl/pattern_rewriter.py:80-370 | And throughout a pattern |
| `Guards.CallConserves` | xdsl/pattern_rewriter.py:80-370 | The operations in blocks afterwards are those before, with the inserted ones and without the erased one |
| `TypeConversion.ConvertExactly` | xdsl/pattern_rewriter.py:503-518 | Recursive conversion computes the one solution of the bottom-up rules: parts first, names kept, then the converter on the attribute made of them |
| `TypeConversion.YieldsExactly` | xdsl/pattern_rewriter.py:503-518 | Without recursion: what the converter gives, or the attribute itself |
| `TypeConversion.SingleType` | xdsl/pattern_rewriter.py:503-518 | A converter of one plain type converts it at every depth when recursive, and only at the top when not |
| `TypeConversion.NothingLeftToConvert` | xdsl/pattern_rewriter.py:503-518 | If it leaves its outputs alone and makes nothing empty, nothing at any depth is left to convert |
| `TypeConversion.IdempotentExactly` | xdsl/pattern_rewriter.py:503-518 | Converting twice is converting once, on all attributes, if and only if the converter is closed |
| `TypeConversion.OutputsLeftAloneIsIdempotent` | xdsl/pattern_rewriter.py:503-518 | A converter that leaves its outputs alone at every depth converts in one application |
| `TypeConversion.ShallowIsNotEnough` | xdsl/pattern_rewriter.py:503-518 | A converter that leaves its outputs alone at the top only, and needs a second application |
| `TypeConversion.ConvertList` | xdsl/pattern_rewriter.py:531-545 | Each conversion loop gives the converted list and reports a change exactly if one is seen |
| `TypeConversion.MatchAndRewrite` | xdsl/pattern_rewriter.py:521-564 | Operations outside the class filter stay; the others are replaced exactly if the rules yield something else for some type, by one in which every type, attribute and property is what they yield, under its name, and block arguments are converted at the top |
| `TypeConversion.SecondVisitExactly` | xdsl/pattern_rewriter.py:531-545 | A second visit reports no change exactly when nothing else was converted to an empty array |
| `TypeConversion.SecondVisitQuiet` | xdsl/pattern_rewriter.py:521-564 | The whole operation is left alone by the second visit of the walker |
| `CodeGeneration.GeneratesExactlyTyped` | xdsl/frontend/code_generation.py:121-278 | Code of a type is generated exactly for the expressions that the typing rules give that type |
| `CodeGeneration.FailsForCause` | xdsl/frontend/code_generation.py:121-278 | Any other expression raises an error that names a defect it has, and no typing rule gives it a type |
| `CodeGeneration.GeneratesIffTyped` | xdsl/frontend/code_generation.py:121-278 | Which error is raised first: that of the first check that fails, right operands before left ones |
| `Frontend.TablesAgree` | xdsl/frontend/code_generation.py:125-250 | The tables of the generator name the methods of the data model, and choose the mnemonic that the overload of that method writes out |
| `CodeGeneration.ComparisonComputes` | xdsl/frontend/code_generation.py:186-278 | The comparison operation with its mnemonic computes the method of the comparison, asked of the left operand |
| `CodeGeneration.InAsksTheLeft` | xdsl/frontend/code_generation.py:262-278 | For `x in y` it is the method of `x` that is computed, where Python calls that of `y` |
| `CodeGeneration.ComputesExactly` | xdsl/frontend/code_generation.py:121-278 | The code of all well-typed expressions computes their values if and only if overloads of `__contains__` commute |
| `CodeGeneration.GenerateCorrect` | xdsl/frontend/code_generation.py:121-278 | The emitted operations and nested regions evaluate to the value of the expression, operands unswapped, leaving older values alone, and raise exactly if the expression does |
| `CodeGeneration.GenerateIf` | xdsl/frontend/code_generation.py:538-568 | A conditional expression runs only the branch its condition selects and yields that branch's value |
| `CodeGeneration.PrologueStores` | xdsl/frontend/code_generation.py:463-508 | The declarations and updates at the start of a function store each actual argument under its name |
| `CodeGeneration.FunctionCorrect` | xdsl/frontend/code_generation.py:463-508 | Calling the generated function on actual arguments returns the value of its expression |
| `CodeGeneration.NameStandsForLast` | xdsl/frontend/code_generation.py:463-508 | A name stands for the last parameter so named, in the types of the generator and in the values of the call |
| `CodeGeneration.ReturnAcceptedExactly` | xdsl/frontend/code_generation.py:592-652 | A return statement is accepted exactly if it has a value where the function has a result type, and of that type |
| `CodeGeneration.ReturnFailsForCause` | xdsl/frontend/code_generation.py:592-652 | Any other one raises an error that names what is wrong with it |
| `CodeGeneration.FunctionAcceptedExactly` | xdsl/frontend/code_generation.py:463-508 | So a function is accepted exactly if what it returns has its result type |
| `IntegerOverloads.IntegersFaithful` | xdsl/frontend/dialects/builtin.py:36-128 | The integer overloads resolve to operations whose implementations compute the methods of Python integers |
| `IntegerOverloads.ArithmeticReturns` | xdsl/interpreters/arith.py:31-41 | The generated code of `a + b`, `a - b` and `a * b` returns the sum, the difference and the product |
| `IntegerOverloads.ComparisonReturns` | xdsl/interpreters/arith.py:63-86 | That of each comparison returns whether it holds |
| `IntegerOverloads.ConditionalReturnsSmaller` | xdsl/interpreters/scf.py:17-23 | That of `a if a < b else b` returns the smaller argument |
| `IntegerOverloads.EmittedDifference` | xdsl/frontend/code_generation.py:121-184 | The operations emitted for a function that returns `a - b`, one by one |
| `GeneratedCode.GeneratedIsSound` | xdsl/frontend/code_generation.py:121-278 | What is emitted for an expression defines values once and before their uses, at every depth, and transfers no control |
| `GeneratedCode.FunctionIsSound` | xdsl/frontend/code_generation.py:463-508 | A generated function is well formed on its own, defines every value once, and keeps the interpreter's rules |
| `GeneratedCode.FunctionOnScopes` | xdsl/interpreter.py:523-572 | So on the interpreter's single-assignment scopes, too, calling it returns the value of its expression, without an SSA error |
| `Visitor.OpInserter.GetOperand` | xdsl/frontend/op_inserter.py:26-34 | Raises on an empty stack; otherwise pops the top and leaves what was below |
| `Visitor.OpInserter.InsertOp` | xdsl/frontend/op_inserter.py:36-40 | Appends to the current block and pushes the results |
| `Visitor.CodeGenerationVisitor.Visit` | xdsl/frontend/code_generation.py:121-278 | The mutating visitor emits what the generator specifies, and the operand stack is one deeper |
| `Visitor.CodeGenerationVisitor.VisitOperands` | xdsl/frontend/code_generation.py:121-184 | Operands are visited right to left and used left to right |
| `Visitor.CodeGenerationVisitor.VisitBranch` | xdsl/frontend/code_generation.py:543-549 | A branch is its own block, ended by a yield of its value |
| `Visitor.CodeGenerationVisitor.VisitIfExp` | xdsl/frontend/code_generation.py:538-568 | Both branches are emitted into regions, the insertion point returns, and the result is on the stack |
| `Visitor.CodeGenerationVisitor.VisitFunctionDef` | xdsl/frontend/code_generation.py:463-508 | A function with one return statement gives the specified region, and the insertion point and stack are restored |
| `Visitor.CodeGenerationVisitor.VisitReturn` | xdsl/frontend/code_generation.py:592-652 | The misplaced return, the three return type errors, or the return operation on the value |
| `Isolation.Verify` | xdsl/traits.py:181-204 | The worklist terminates and accepts exactly the operations whose operands, not looking into nested isolated operations, are owned inside |
| `Isolation.CheckBlock` | xdsl/traits.py:190-204 | The regions collected are exactly those of the operations that are not isolated |
| `Isolation.SkippingIsExact` | xdsl/traits.py:201-204 | Checking an operation and every isolated operation below it is the same as the deep check: every operand at any depth is owned inside |
| `Isolation.IdsExactly` | xdsl/ir/core.py:596-602 | What is collected for an operation is exactly what it is an ancestor of |
| `Isolation.AcceptedExactly` | xdsl/traits.py:181-204 | Accepted is exactly the operation that is an ancestor of the owner of every operand reached without passing through an isolated operation |
| `Isolation.IsolatedExactly` | xdsl/traits.py:172-179 | Isolated is exactly the one that is an ancestor of the owner of every operand inside |
| `SymbolTables.Verify` | xdsl/traits.py:215-236 | Accepts exactly one region with one block in which no name is carried twice |
| `SymbolTables.NamesExactly` | xdsl/traits.py:328-350 | A symbol name must be a string; only an optional symbol may be without one |
| `SymbolTables.LookupSymbol` | xdsl/traits.py:239-265 | The anchor loop, the scan and the recursion on the path compute the specified look-up |
| `SymbolTables.ScanExactly` | xdsl/traits.py:256-265 | An operation is found exactly if it is the first with that name and nothing before it is malformed |
| `SymbolTables.ScanNothing` | xdsl/traits.py:256-265 | Nothing is found exactly if no operation has the name and none is malformed |
| `SymbolTables.ScanRaises` | xdsl/traits.py:256-265 | The scan raises exactly if a malformed operation comes before any with the name |
| `SymbolTables.ClosestTableIsSearched` | xdsl/traits.py:239-265 | A name is looked up in the one block of the closest enclosing table: the first operation there that carries it |
| `SymbolTables.OnlyClosestTableMatters` | xdsl/traits.py:239-265 | What is below that table and what is around it does not matter, for paths too |
| `SymbolTables.NoTableRaises` | xdsl/traits.py:239-250 | A look-up raises for want of a table exactly if there is none around it |
| `SymbolTables.NonTableIsTransparent` | xdsl/traits.py:260-264 | Behind a component that is not a table, the next one is looked up in the same table |
| `SymbolTables.TableNarrows` | xdsl/traits.py:260-264 | Behind a table, the rest of the path is looked up in that table alone |
| `SymbolTables.InsertedIsFound` | xdsl/traits.py:297-307 | The new symbol is found, at the position of what it replaced or at the end |
| `SymbolTables.OthersUnchanged` | xdsl/traits.py:297-307 | Every other name resolves as before, exceptions included |
| `SymbolTables.InsertAgreesWithLookup` | xdsl/traits.py:239-307 | After insertion the symbol's name finds it, and every path that does not mention the name resolves as before |
| `SymbolTables.UniqueExactly` | xdsl/traits.py:229-236 | Names stay unique exactly when no operation outside the symbol interface carries the name |
| `SymbolTables.PutBack` | xdsl/traits.py:302-307 | Inserting the replaced operation again restores the block and gives the symbol back |
| `SymbolTables.RefusedExactly` | xdsl/traits.py:268-307 | An insertion raises exactly if the symbol is none or has no name, the table is none or malformed, the scan is stuck, or the symbol is attached; and the error names a reason that is there |
| `SymbolTables.OpCell.InsertOrUpdateSymbol` | xdsl/traits.py:268-307 | Every error leaves the table unchanged; otherwise only the one block changes, as specified, and the replaced operation is returned |
| `Terminators.OpCell.Verify` | xdsl/traits.py:115-132 | Accepts exactly single-block regions that end in the class |
| `Terminators.OpCell.EnsureTerminator` | xdsl/traits.py:135-169 | Raises with the operation unchanged, or leaves an operation that passes the verifier |
| `Terminators.RepairedVerifies` | xdsl/traits.py:115-169 | Whatever can be repaired passes the verifier afterwards |
| `Terminators.VerifiedIsRepairable` | xdsl/traits.py:115-155 | What the verifier accepts is never refused |
| `Terminators.UntouchedExactly` | xdsl/traits.py:160-169 | Repair changes nothing exactly when every region already ends in a terminator |
| `Terminators.IdempotentExactly` | xdsl/traits.py:160-169 | Repairing twice is repairing once, for all operations, if and only if the class is a terminator |
| `Terminators.BodyRoundTripExactly` | xdsl/dialects/scf.py:248-302 | Printing and parsing a loop body restore it exactly when something is carried or the body ends in a bare yield with no terminator before it |
| `Terminators.VerifiedLoopRoundTrip` | xdsl/dialects/scf.py:207-221 | For a verified loop: exactly when something is carried or the yield has no attributes |
| `TypePrinter.RoundTrip` | xdsl/printer.py:361-574 | Every verified type, of any nesting, is read back from its tokens, whatever follows it |
| `TypePrinter.FunctionRoundTrip` | xdsl/printer.py:460-471 | The bare single result and the parenthesised function-typed result are told apart |
| `TypePrinter.TensorRoundTrip` | xdsl/printer.py:523-540 | Dimensions, dynamic ones included, element type and encoding come back |
| `TypePrinter.VectorRoundTrip` | xdsl/printer.py:542-567 | The split into static and scalable dimensions comes back |
| `TypePrinter.PrintInjective` | xdsl/printer.py:361-574 | Different verified types are printed differently |
| `TypePrinter.UnsignedExactly` | xdsl/printer.py:523-567 | No number is printed with a sign, exactly if no dimension is negative, dynamic ones of tensors apart |
| `TypePrinter.ResultsAfterArrow` | xdsl/printer.py:460-471 | A parenthesis follows the arrow exactly if there is not one result, or it is a function; otherwise the result stands bare |
| `TypePrinter.Printer.PrintType` | xdsl/printer.py:361-574 | The emitting printer appends exactly the tokens of the type |
| `TypePrinter.Printer.PrintFunction` | xdsl/printer.py:460-471 | The same for function types |
| `TypePrinter.Printer.PrintTensor` | xdsl/printer.py:523-540 | The same for tensors, with the loop over dimensions |
| `TypePrinter.Printer.PrintVector` | xdsl/printer.py:542-567 | The same for vectors |
| `TypePrinter.Printer.PrintTypes` | xdsl/printer.py:171-177 | A list with separators between its elements only |
| `DenseLiterals.ShapeIsComplete` | xdsl/dialects/builtin.py:871-885 | Exactly the non-empty shapes of positive dimensions with as many indices as there are data |
| `DenseLiterals.NestedRoundTrip` | xdsl/parser/attribute_parser.py:867-892 | The literal parser gets back the data and the dimensions of every nested list, of any rank |
| `DenseLiterals.DenseRoundTripExactly` | xdsl/parser/attribute_parser.py:652-707 | Printing and parsing give back the data if and only if shape, signs and number of entries fit |
| `DenseLiterals.CompleteRoundTrip` | xdsl/printer.py:487-513 | Nothing is lost for complete shapes, splat or listed |
| `DenseLiterals.ChunkSize` | xdsl/printer.py:493-493 | The chunk size is the number of entries of a row, and never zero |
| `DenseLiterals.ConstantCounts` | xdsl/printer.py:510-511 | The count test holds exactly when all data are equal |
| `DenseLiterals.Printer.PrintDenseList` | xdsl/printer.py:487-500 | The recursive list printer emits exactly the nested list of the shape |
| `DenseLiterals.Printer.PrintChunks` | xdsl/printer.py:494-497 | The range over chunks emits each row once, in order |
| `DenseLiterals.Printer.PrintDenseData` | xdsl/printer.py:502-514 | Nothing, one splat value, or the nested list |
| `SsaNames.NamesStay` | xdsl/printer.py:229-230 | A value keeps its name over any further run of print calls |
| `SsaNames.RunExplained` | xdsl/printer.py:222-241 | Every name handed out is accounted for by a number or a hint with an index, and none is handed out twice |
| `SsaNames.DigitsAreDecimal` | xdsl/printer.py:204-206 | Numbers are written in decimal, without leading zeros |
| `SsaNames.FirstPrinted` | xdsl/printer.py:222-241 | A value without a hint is first printed as the number of those before it; with a hint, as the hint, followed by `_` and that number if it is taken |
| `SsaNames.PrintedAgain` | xdsl/printer.py:229-230 | And every later time as the first time |
| `SsaNames.SameTextExactly` | xdsl/printer.py:231-239 | Two names are spelled alike exactly if they are the same, or a bare hint spells a numbered one |
| `SsaNames.FaithfulExactly` | xdsl/printer.py:222-241 | Over any run, equal texts stand for equal values if and only if no hint in use spells a numbered name in use |
| `SsaNames.SafeHintsExactly` | xdsl/printer.py:222-241 | A set of hints is safe for all runs if and only if none is another one followed by `_` and a positive number |
| `SsaNames.Printer.PrintSsaValue` | xdsl/printer.py:222-241 | Tables and output stay those of the calls made so far, and nothing printed earlier changes |
| `SsaNames.Printer.OutputFaithfulExactly` | xdsl/printer.py:222-241 | The same equivalence for the output of a printer object |
| `Subview.SourceStrides` | xdsl/dialects/memref.py:537-541 | The loop over the reversed shape builds the suffix products |
| `Subview.FromStaticParameters` | xdsl/dialects/memref.py:526-569 | Layout and sizes of the result: the composed view, with unit dimensions dropped on request |
| `Subview.ReduceRank` | xdsl/dialects/memref.py:555-564 | The loop keeps strides and sizes of exactly the dimensions that are not one |
| `Subview.AddressLaw` | xdsl/dialects/memref.py:548-553 | The element of the view at i is the element of the source at offsets + strides * i |
| `Subview.FirstElement` | xdsl/dialects/memref.py:538-544 | The first element of the source is at the offset of its layout |
| `Subview.StrideOfDimension` | xdsl/dialects/memref.py:545-546 | In a static layout, one step in a dimension is as far as its stride says |
| `Subview.RowMajorSource` | xdsl/dialects/memref.py:537-544 | In any other layout elements follow each other in row-major order, from the offset on |
| `Subview.ViewOfView` | xdsl/dialects/memref.py:548-553 | A view of a view is one view with composed offsets and strides |
| `Subview.RankReductionKeepsAddresses` | xdsl/dialects/memref.py:555-564 | Dropping unit dimensions keeps every address |
| `Subview.ReduceThenExpand` | xdsl/dialects/memref.py:555-564 | Every in-bounds index of the full view comes from an in-bounds index of the reduced one |
| `Subview.ExpandThenReduce` | xdsl/dialects/memref.py:555-564 | And from exactly one |
| `Subview.ReducedAddressLaw` | xdsl/dialects/memref.py:548-564 | The address law for a rank-reduced view |
| `Subview.RowMajorNumbers` | xdsl/dialects/memref.py:537-541 | In-bounds indices get addresses in [0, product of shape), and the address gives the index back, for every rank |
| `Subview.NumbersAreIndices` | xdsl/dialects/memref.py:537-541 | Every address in that range belongs to an in-bounds index |
| `Subview.RowMajorInjective` | xdsl/dialects/memref.py:537-541 | Distinct in-bounds indices have distinct addresses |

## Left out

- Other uses: values used outside the edited region are not part of `EditedRegion`; a use anywhere inside it, at any depth, is.
- Passes.PassPreservesMeaning: the replaced operation and the new ones have no successors, and its block is reachable from the entry block; for an operation in unreachable code a target can lie behind a use.
- `Interpreter.call_op` and the symbol lookup of callees, which end in `run_ssacfg_region`.
- Name hints carried over by `replace_by` and `replace_op`: they do not affect any run.
- `Rewriter.inline_block_*`, `insert_block_*` and `move_region_contents_to_new_regions` appear only as calls of the pattern rewriter (`Guards`, `PatternRewriters`), not with their own meaning for runs.
- Patterns that look at operations other than the matched one and what is inside it.
- PatternRewriters.PatternRewriter.EraseMatchedOp: does not check that the results are unused, since uses elsewhere in the module are not part of the rewriter; `Rewriter.EditedRegion.EraseOp` has that check.
- PatternRewriters.PatternRewriter.ReplaceMatchedOp: does not refuse a deleted result that is still used, nor a result that gives way to a result, for the same reason; the target of a deleted result is the erased value its uses go to. `Rewriter.EditedRegion.ReplaceOp` has both checks.
- PatternRewriters.PatternRewriter.InlineBlockBeforeMatched: takes blocks directly in the matched operation; one from deeper inside is an edit in place followed by an insertion.
- PatternRewriters.PatternRewriter.InlineBlockAfterMatched: the same.
- Factoring.DirectionIrrelevant: takes patterns as functions of the operation, so that new values are named by it; a pattern of the program that acts twice on an operation it keeps gets new objects each time, which no such function models unless something in the operation changes.
- Walker.RewriteModule: covers patterns that, on the module operation, only edit in place, because every other call raises on an operation without a parent.
- Walker.RewriteBlock: a recursive walk is proved for patterns whose cursor is right (`CursorRight`; where it is not, `CursorMissesExactly` says where it goes), and an operations-first walk without recursion for patterns that do not nest what they leave deeper than what they were offered, since one that does can run forever.
- `Guards.Call` has one insertion, one erasure, one replacement, one inlining and one region move; the calls of `PatternRewriter` that differ only in where they insert are the same call with another position.
- TypeConversion.MatchAndRewrite: rebuilt attributes are not verified again.
- IntegerOverloads.IntegersFaithful: bitwise and shift overloads resolve to operations that the interpreter has no implementation of, and are not part of the instance; its integers are Python's, as in the interpreter.
- CodeGeneration.FunctionCorrect: function bodies are one return statement. `visit_If`, `visit_For`, `visit_Assert`, `visit_Pass`, and the assignments, which the front end does not implement, are not modelled; all exceptions of Python operators are one.
- CodeGeneration.PrologueStores: the meaning of symbol declarations and updates is given by `StoreAfter`, since the interpreter has no implementation of them.
- Type syntax is modelled in tokens, not characters, and covers integers, index, floats, complex, function, tensor, unranked tensor and vector types. Memref types, attribute aliases, locations and dialect types are not modelled.
- Tensor encodings are types here; the code admits any attribute.
- TypePrinter.RoundTrip: the reader is the grammar of the printed form, not a model of the parser.
- Float elements of dense literals are printed with six digits and do not come back; the literals here hold integers.
- Subview.FromStaticParameters: a strided layout with a dynamic stride is addressed row-major and one with a dynamic offset from zero, as the code does; the address laws speak of the addressing used.
- Dynamic subview parameters, other layouts, affine maps.
- `SymbolTables`: operations that contain the table cannot be inserted into it here; `parent` pointers are given by the chain of ancestors.
- The other trait verifiers, which are single comparisons.
- Stencil index arithmetic and halos, the IRDL machinery, the lexer and the parser of operations, builders other than appending, diagnostics, command-line tools, and the declarative dialects: they would only add easier members.
