# Kint, modelled and verified in Dafny

Kint finds integer errors in C programs compiled to LLVM. This project models the parts of it in
which the reasoning is done and proves what they promise, for every program, run, width and operand.

**Path guards and value formulas.** `ValueGen` turns a program value into a bit-vector formula,
`PathGen` turns a basic block into a formula for "control can be here", and the two clients ask a
solver about them: `CmpSat` reports comparisons that never vary, `IntSat` overflow bits that can be
set; `Queries` has what the two share. The model has functions as control-flow graphs in SSA form (`Ir`), dominance over paths
(`Dominance`), a small-step semantics whose runs may loop (`Interp`), formulas with an evaluator and a
reference-counted solver (`Smt`, `Ledger`), the two memoising generators as classes, and theorems that
connect them: the guard of the current block is true in every state of every run, loops included
(`RunSoundness`); a guard is true exactly along some path from the entry, without back edges in one mode
and from immediate dominators to loop headers in the other (`GuardMeaning`); the formula of each kind of
value has that kind's value under every valuation (`FormulaKinds`); cached formulas are released exactly
once. Opcodes have one total meaning (`Bits`) in the interpreter and in the evaluator, and `Opcodes` says
in other terms, digit by digit or by the division equation, what it is. `Runs` says what runs there are.

**Whole-program fixpoints.** `CallGraph` computes the least solution of the function-pointer
constraints, which is exactly what has a finite derivation, and which does not depend on the order of
modules and functions as long as no external name has two definitions; `Range` ends within K + 5 rounds for a module
that can write K slots, leaves a post-fixpoint, and adds no value that no site contributes unless it
widens; `Taint` attaches nothing without a flow from a source (`TaintFlow`), passes on in every step all
that the step must (`TaintDelivery`), and marks exactly the sources.

**Overflow arithmetic at any width.** `OverflowIdiom`, `OverflowSimplify`, `CmpOverflow` and
`BoolectorShift` prove where each rewrite is exact, and prove the exact condition where it is not.
`BoolectorQueries` carries the exact region of the lowered shifts over to the queries of the detectors.

**Deferred check placement.** `IntRewrite` proves that the worklist follows exactly the def-use closure
through unobservable users, and where the checks go.

Modules follow the source files; each method is proved against a function or predicate, and the
theorems are lemmas about those. `dafny verify dfyconfig.toml` checks the project.

## Where the code does not do what it says or needs

- **Shared successors.** `src/PathGen.cc:123` takes any edge to the first successor as the
  true edge, and `src/PathGen.cc:136-150` ignores cases that share the default's destination in the
  default's guard. `GuardMeaning.Shadowed` is this situation, `GuardMeaning.TermGuardMeaning` and
  `RunSoundness.StepEdgeHolds` say that it is the only one in which a guard misses an edge that is taken,
  `GuardMeaning.PlainIffNeverShadowed` turns it into a condition on the terminator alone, and
  `SharedSuccessors.ReportCanBeWrong` has a branch and a switch for which the report is then wrong.
- **Constant minus value.** The comment at `src/OverflowSimplify.cc:185-187` compares R, the code at
  `src/OverflowSimplify.cc:188-193` compares L. The comment's formula is exact; the code's is never true.
- **Multiplying by -1.** `src/OverflowSimplify.cc:232` wraps SMIN / -1, so the bit is always true.
- **x > C / y with C = 2^k - 1.** The disjunct `y > C` at `src/OverflowIdiom.cc:128` is wrong for x = 0,
  and C = 0 asks for an integer type of no bits at `src/OverflowIdiom.cc:123-124`.
- **Strict bounds.** `src/CmpOverflow.cc:93-130` never looks at the predicate of a comparison and reads
  every constant as the bound of x <= C. `CmpOverflow.ExactCheckIff` says for each predicate which constant
  is right; by `CmpOverflow.JudgeMeaning` a report is about a wrong check unless the check is strict and its
  constant is (UMAX - a) / b + 1, and `CmpOverflow.StrictCheckReported` says when that right check is
  reported, as at eight bits x < 15 for 16 + x * 16 (`CmpOverflow.EightBitStrictCheck`). About signed
  comparisons only their being wrong is claimed.
- **A name with two definitions.** `src/CallGraph.cc:205-207` lets a later definition replace an earlier one,
  so which function a declaration stands for depends on the order of the modules.
  `CallGraph.TableIsOrderIndependent` says that all orders agree exactly when no external name is defined
  twice, and `CallGraph.OrderMatters` is a program whose results differ.
- **Arithmetic right shift.** `src/SMTBoolector.cc:236-237` extends the operand with zeros at a width that
  is not a power of two; `BoolectorShift.ThreeBitShiftDiffers` is the smallest case, and
  `BoolectorQueries.BackendIsRight` needs such shifts to be absent.
- **Several ranges on one value.** Metadata with several pairs means their union, but
  `src/ValueGen.cc:319-357` asserts each pair on its own, which is their intersection.
  `Queries.ConstraintsAreMetadata` says that the two agree exactly when all pairs describe the same range,
  which is all that `src/Range.cc:549-554` writes, and `SeveralRanges.ReportCanBeWrong` is a load with two
  pairs for which a report is wrong. `CmpSat.Check` and `IntSat.QueryOverflow` have the condition as a
  hypothesis of what they say about runs.

## Model

| member | source | states |
|---|---|---|
| Dominance.DominatesJoin | src/PathGen.cc:42-47 | a common dominator of all predecessors strictly dominates the block and has a smaller rank, even when predecessors lie on loops through it, so falling back terminates |
| Dominance.AncestorsAreDominators | src/PathGen.cc:23-29 | the blocks above one in the dominator tree are exactly those on every path to it |
| Dominance.NearestCommonDominatorCorrect | src/PathGen.cc:27-27 | the tree's nearest common dominator dominates both blocks, and every other common dominator dominates it |
| PathGen.FindCommonDominator | src/PathGen.cc:23-29 | the loop over predecessors returns the block's immediate dominator |
| PathGen.CommonDominatorIsImmediate | src/PathGen.cc:23-29 | the nearest common dominator of all predecessors, back edges included, is the immediate dominator and has a smaller rank |
| PathGen.PathGen.Get | src/PathGen.cc:31-71 | the memoised recursion returns the unmemoised guard in either mode, whose meaning GuardMeaning.DominatorGuardIsPath and GuardMeaning.ForwardGuardIsPath give, terminates by rank, keeps the cache right, and keeps the number of references held outside the two caches |
| PathGen.PathGen.Disjunction | src/PathGen.cc:49-68 | the loop builds the disjunction over predecessors, skipping back edges, and leaves exactly one new reference |
| PathGen.PathGen.Arrival | src/PathGen.cc:57-63 | terminator, phi equations and predecessor guard conjoined; every intermediate reference is given back |
| PathGen.PathGen.Dispose | src/PathGen.cc:18-21 | the destructor gives back exactly one reference per entry |
| PathGen.GetPhiGuard | src/PathGen.cc:78-100 | the conjunction of the equations of the phis whose incoming value is defined and integral, with one new reference |
| PathGen.GetTermGuard | src/PathGen.cc:102-165 | the terminator's condition for the edge, with one new reference |
| GuardMeaning.PlainIffNeverShadowed | src/PathGen.cc:115-165 | no condition value leads over an overlooked edge exactly when branch successors differ and no case shares the default's destination |
| GuardMeaning.TermGuardMeaning | src/PathGen.cc:102-165 | for every valuation the terminator guard is true exactly when the terminator goes that way and the edge is not overlooked |
| GuardMeaning.PhiEquationsMeaning | src/PathGen.cc:78-100 | all phi equations are true exactly when every constraining phi equals what it receives on the edge |
| GuardMeaning.EdgeGuardMeaning | src/PathGen.cc:57-61 | for every valuation the edge formula is true exactly when control can pass over the edge and all phis agree |
| GuardMeaning.DisjunctiveGuardMeaning | src/PathGen.cc:49-68 | without a dominator tree, and with one for every block that no back edge enters, the guard of a block is true exactly when control arrives over some edge that is not a back edge |
| GuardMeaning.ForwardGuardIsPath | src/PathGen.cc:31-71 | without a dominator tree a guard is true exactly when some path without back edges from the entry holds edge by edge |
| GuardMeaning.DominatorGuardIsPath | src/PathGen.cc:31-71 | in every function, loops or not, a guard with a dominator tree is true exactly when some chain of blocks from the entry holds: each block after an edge that holds, and each loop header after its immediate dominator |
| GuardMeaning.LoopFreeGuardIsPath | src/PathGen.cc:42-68 | in a function without back edges the guard with a dominator tree is true exactly along some path every edge of which holds, joins included, as is the guard without one |
| GuardMeaning.ForwardImpliesDominator | src/PathGen.cc:42-57 | for every block and valuation the guard that drops back edges implies the guard that falls back to dominators |
| ValueGen.ValueGen.Get | src/ValueGen.cc:306-317 | the cached formula is the formula of the value, it is live, the cache keeps agreeing, and no reference is lost or gained outside the cache |
| ValueGen.ValueGen.Visit | src/ValueGen.cc:25-161 | each kind of value yields its formula and exactly one new reference |
| ValueGen.ValueGen.AddIndices | src/ValueGen.cc:167-218 | the loop over indices yields the base plus scaled variable indices and the constant part at pointer width, with one new reference |
| ValueGen.MakeRange | src/ValueGen.cc:327-353 | the condition for one metadata pair, with a zero bound needing no comparison, and no reference left behind |
| ValueGen.AddRangeConstraints | src/ValueGen.cc:319-357 | exactly the conditions of the pairs with distinct bounds are asserted, and all references are given back |
| ValueGen.ValueGen.Dispose | src/ValueGen.cc:291-294 | the destructor gives back exactly one reference per entry |
| FormulaKinds.FormulaByKind | src/ValueGen.cc:25-161 | for every valuation the formula of a value has the value of its kind: operators applied to their operands' values, both sides of a select, each cast at its width, each result of an overflow intrinsic, an address with all its indices, and a variable of its own for what the code does not look into |
| FormulaSoundness.AddressMeaning | src/ValueGen.cc:167-229 | for every valuation an address formula is the base plus all scaled indices, variable and constant, modulo 2^w |
| Opcodes.SumMeaning | src/ValueGen.cc:78-80 | addition and subtraction wrap and undo each other, and a product is the product modulo 2^w |
| Opcodes.UnsignedDivision | src/ValueGen.cc:81-83 | quotient and remainder satisfy the division equation, and by zero they are what the bit-vector theory says |
| Opcodes.SignedDivision | src/ValueGen.cc:82-84 | signed division truncates: the remainder is smaller than the divisor and has the sign of the dividend, and the division equation holds except for the least value by -1 |
| Opcodes.LogicMeaning | src/ValueGen.cc:88-90 | the logical operations work digit by digit |
| Opcodes.ShiftMeaning | src/ValueGen.cc:85-87 | a left shift moves digits up, a logical right shift down, and an arithmetic one repeats the sign digit |
| Opcodes.OverflowMeaning | src/ValueGen.cc:142-157 | an operation's overflow bit is set exactly when its wrapped result, read with the operation's sign, is not the exact one |
| Opcodes.ComparisonMeaning | src/ValueGen.cc:94-109 | the ten predicates in terms of the order of numbers and the sign digits |
| FormulaSoundness.FormulaIsValue | src/ValueGen.cc:25-161 | whenever the equations of the values that dominate a block hold, the formula of each of them evaluates to its current value |
| FormulaSoundness.AddressIsValue | src/ValueGen.cc:167-229 | the split into variable and wrapped constant parts denotes base plus all indices modulo 2^w |
| RunSoundness.FormulaVars | src/ValueGen.cc:25-161 | a formula mentions only values defined no later than the value itself |
| RunSoundness.GuardVars | src/PathGen.cc:31-71 | a guard mentions only values defined no later than its block |
| RunSoundness.GuardKept | src/PathGen.cc:42-47 | entering a later block leaves the guard of an earlier one unchanged: nothing it mentions can go stale |
| RunSoundness.StepSettled | src/ValueGen.cc:306-317 | entering a block establishes its values' equations and disturbs none that is still available |
| RunSoundness.StepEdgeHolds | src/PathGen.cc:57-63 | after a step over a forward edge the edge formula is true of the new values exactly when the edge is not an overlooked one |
| RunSoundness.ValueFormulasAreExact | src/ValueGen.cc:306-317 | in every state of every run, however often it loops, the formula of every available value is its current value |
| RunSoundness.DominatorGuardHolds | src/PathGen.cc:31-71 | with a dominator tree the guard of the current block is true in every state of every looping run that takes no overlooked edge |
| RunSoundness.ForwardGuardHolds | src/PathGen.cc:49-68 | without a dominator tree the same holds in every state of every run that follows no back edge |
| RunSoundness.GuardHoldsInPlainFunctions | src/PathGen.cc:31-150 | when no branch has equal successors and no case shares the default's destination, the guard of the current block is true in every state of every looping run, without further conditions |
| Runs.RunsGoOn | src/PathGen.cc:102-165 | a run goes on to exactly the blocks its terminator leads to, over back edges too |
| Runs.AnyChoiceOccurs | src/ValueGen.cc:25-161 | it does so with any plausible values for everything the formulas treat as a variable of its own |
| Runs.LoopsForever | src/PathGen.cc:42-47 | a concrete function with a loop, its dominator tree, and for every number a run that goes round the loop so many times |
| SharedSuccessors.ReportCanBeWrong | src/PathGen.cc:115-150 | a concrete function whose entry has equal branch successors or a switch case that shares the default's destination, and a run in which a comparison is true although every complete solver refutes it |
| Queries.RangeFormulaMeaning | src/ValueGen.cc:327-353 | the condition of one pair with distinct bounds, wrapping or not, is true exactly of the values in the range |
| Queries.ConstraintsMeaning | src/ValueGen.cc:319-357 | the conditions of a value are all true exactly when it lies in every one of its ranges |
| Queries.ConstraintsAreMetadata | src/ValueGen.cc:319-357 | lying in every pair is the same as lying in some pair, which is what the metadata means, for all values of the width exactly when all pairs describe the same range |
| Queries.OnePairIsUniform | src/Range.cc:549-554 | metadata with at most one pair per value, as the range pass writes it, is of one kind |
| SeveralRanges.ReportCanBeWrong | src/ValueGen.cc:319-357 | a concrete load with two pairs, and a run inside its metadata in which a comparison is true although every complete solver with the asserted conditions refutes it |
| CmpSat.Check | src/CmpSat.cc:60-87 | with a solver that is correct on the function's queries and one kind of range per value, "always false" means no run has the condition true at the branch and "always true" none has it false; with a complete solver, no verdict means that either value of the condition has a model that has a path to the branch, from immediate dominators to loop headers, and keeps the ranges of every value mentioned; all references are back when the solver is destroyed |
| CmpSat.Decide | src/CmpSat.cc:68-82 | the verdict follows from the two queries, and every query and negation is released |
| CmpSat.RuledOutEdge | src/CmpSat.cc:72-81 | with plain terminators a verdict means that no run ever follows the edge it rules out |
| CmpSat.OccurringState | src/CmpSat.cc:66-68 | every state that occurs satisfies the guard and gives the condition's formula its run-time value |
| IntSat.QueryOverflow | src/IntSat.cc:118-127 | with a solver that is correct on the function's queries and one kind of range per value, "unsatisfiable" means no run without back edges makes the bit true at the block; any other answer of a complete solver has a path, and a model that keeps the ranges of every value mentioned, to show for it |
| IntSat.PlainForwardOccurs | src/IntSat.cc:118-127 | with plain terminators the states meant are the ends of all runs without back edges |
| Queries.TearDown | src/SMTBoolector.cc:40-43 | with the two generators destroyed first, no reference is left, which the solver's destructor asserts |
| CallGraph.CollectExact | src/CallGraph.cc:66-139 | although each branch copies its visited set and the graph may be cyclic, the search collects exactly what some chain of casts, phis and selects delivers |
| CallGraph.PointsByKind | src/CallGraph.cc:71-139 | what each kind of value may point to, cycles included: a definition itself, a declaration its entry in the table if there is one and else itself, a cast what its operand does, a phi exactly what some incoming value does, a select exactly what either side does, a slot its contents, anything else nothing |
| CallGraph.CallGraphPass.FindFunctions | src/CallGraph.cc:71-139 | the search terminates, adds exactly the collected functions to the target set, and returns true exactly when the set grew; what it collects is by CallGraph.CollectExact what the value may point to, which CallGraph.PointsByKind gives kind by kind |
| CallGraph.CallGraphPass.MergeFuncSet | src/CallGraph.cc:58-63 | the union, and whether it is larger |
| CallGraph.CallGraphPass.CalleesOf | src/CallGraph.cc:213-226 | the callees recorded for a call are exactly the functions its callee operand may point to |
| CallGraph.CallGraphPass.Assign | src/CallGraph.cc:146-160 | a store or return adds only what every solution has, and its inclusion holds once nothing is added |
| CallGraph.CallGraphPass.PassArguments | src/CallGraph.cc:161-191 | a call adds to its targets' parameters only what every solution has, and its inclusions hold once nothing is added |
| CallGraph.CallGraphPass.RunOnFunction | src/CallGraph.cc:141-194 | the change flag is exact, an unchanged function satisfies all its inclusions, and everything added is in every solution |
| CallGraph.CallGraphPass.CollectDefinitions | src/CallGraph.cc:204-208 | the table takes over the module's external definitions one after the other, and nothing else changes |
| CallGraph.MembersAreDefinitions | src/CallGraph.cc:204-208 | a name that the module defines has one of its definitions as its entry, and every other name keeps the entry it had |
| CallGraph.LinkedLookup | src/CallGraph.cc:204-208 | over all modules a name has one of its definitions as its entry exactly when some module defines it |
| CallGraph.TableIsOrderIndependent | src/CallGraph.cc:204-208 | the table is the same for every order of the modules exactly when no external name has two definitions |
| CallGraph.OrderMatters | src/CallGraph.cc:204-208 | with a name defined in two modules, a concrete program has different least solutions for two orders |
| CallGraph.CallGraphPass.DoInitialization | src/CallGraph.cc:196-211 | exactly the functions of the initializers enter their slots, and the module's definitions the table |
| CallGraph.CallGraphPass.DoModulePass | src/CallGraph.cc:228-237 | the loop terminates with all inclusions of the module satisfied and nothing added that a solution could do without |
| CallGraph.CallGraphPass.Run | src/IntGlobal.cc:61-87 | after all initializers and definitions are known, the iteration over all modules terminates with the least solution of all inclusions and initializers, and a slot has a function exactly when that has a derivation |
| CallGraph.LeastIsDerivable | src/CallGraph.cc:141-194 | the least solution has exactly what some finite chain of initializer, store, return and argument steps puts into a slot |
| CallGraph.SolutionMeaning | src/CallGraph.cc:141-194 | in a solution every store to a named slot and every return puts all that the operand may point to into its slot, and every call that is not ignored puts all that a function-pointer argument may point to into that parameter of every function that may be called |
| CallGraph.OrderIndependent | src/IntGlobal.cc:61-87 | when no external name has two definitions, the results of two runs of the pass over the same code are the same for any order and grouping of modules and functions, each run with the table it builds itself |
| Range.SafeUnionCovers | src/CRange.h:28-42 | the grown range keeps its width and covers the old range and every resized value of the new one; a full range stays |
| Range.UnionIsExact | src/CRange.h:28-42 | with an exact library x is in the grown range exactly when it was there or is a value of the new range, cut to the slot's width |
| Range.UnionGains | src/Range.cc:37-64 | with an exact library a merge adds to its own slot exactly the values of the range and to other slots nothing |
| Range.RangePass.UnionRange | src/Range.cc:37-64 | an empty range adds nothing; otherwise the slot is created or grown by the range, by nothing else if the library is exact (Range.UnionGains), the change flag is exact, and the changed slot is recorded |
| Range.RangePass.UpdateFunction | src/Range.cc:491-503 | ranges grow site by site, the flag is exact, and the recorded slots are exactly those that differ |
| Range.RangePass.Widen | src/Range.cc:512-518 | exactly the slots changed in the last round become full; each of them exists |
| Range.RangePass.Round | src/Range.cc:510-525 | one round widens from the sixth on, runs every function once and leaves exactly the changed slots recorded |
| Range.RoundFacts | src/Range.cc:510-525 | a round only grows ranges of slots the module writes, what it widens is full and does not change again, and a round without changes leaves the module stable |
| Range.RoundsPrecise | src/Range.cc:505-527 | with an exact library, after any number of rounds every value of a slot was there at the start or is what some site of the module contributed to that slot from ranges in between, unless the slot was widened, which takes more than five rounds |
| Range.SixthRoundWidens | src/Range.cc:511-518 | from the sixth round on, whatever changed in the round before has every value of its width |
| Range.SpentIsSaturated | src/Range.cc:511-518 | over any number of rounds a widened slot stays full and never changes again |
| Range.SpentGrows | src/Range.cc:511-518 | from the sixth round on every round that follows a changing one widens a slot not widened before |
| Range.RoundsAreBounded | src/Range.cc:505-527 | as long as every round changes something there are at most K + 5 of them, K being the slots the module writes |
| Range.RangePass.DoModulePass | src/Range.cc:505-527 | the loop runs exactly the rounds up to the first that changes nothing, at most K + 5, and leaves the module stable and nothing recorded; with an exact library every value is explained as in RoundsPrecise |
| Range.RangePass.DoInitialization | src/Range.cc:186-197 | every initializer constant is covered by its slot |
| Range.RangePass.Run | src/IntGlobal.cc:61-87 | the iteration over modules terminates; ranges only grow; at the end every initializer is still covered and re-running any function of any module adds nothing |
| Range.StableCovers | src/Range.cc:491-503 | where re-running a function adds nothing, every slot covers everything every site of it contributes |
| Taint.TaintPass.AddValue | src/IntGlobal.h:39-44 | descriptions join those of the value |
| Taint.TaintPass.AddSlot | src/IntGlobal.h:60-68 | descriptions and source mark join the entry, and "new" is answered exactly when the slot had no entry, because no entry is empty |
| Taint.TaintPass.GetTaint | src/Taint.cc:37-59 | the lookup finds a description exactly when the value has it, or else the pointer it casts, or else its own slot or the result of a function it may call, and what it attaches to the operand on the way |
| Taint.TaintPass.CheckTaintSource | src/Taint.cc:66-84 | a source taints and marks its own slot and every member of the struct it points to, with all that is attached to it |
| Taint.TaintPass.Propagate | src/Taint.cc:120-135 | the operands' descriptions together reach the result and the slot stored to or returned: every description that an operand offers is delivered, and nothing else is attached |
| Taint.TaintPass.PropagateCall | src/Taint.cc:97-118 | each tainted argument reaches that parameter of each callee that is neither variadic nor built in, with every description that the argument, or the pointer it casts, has |
| Taint.TaintPass.RunOnFunction | src/Taint.cc:87-138 | the new maps are those of the instructions one after the other, and the flag says exactly whether a slot was added |
| TaintDelivery.LookupMeaning | src/Taint.cc:37-59 | looking a value up finds exactly what it offers, and attaches only to a value without an entry |
| TaintDelivery.OperandsMeaning | src/Taint.cc:120-124 | going through the operands gathers what each of them offers, whatever earlier lookups have attached |
| TaintDelivery.PropagateDelivers | src/Taint.cc:120-135 | after an instruction that is no call, what an operand gives is attached to the result, to the slot stored to and to the slot returned |
| TaintDelivery.SourceDelivers | src/Taint.cc:66-84 | a source has its description, and its slot and every member of the struct have all of its descriptions |
| TaintDelivery.CalleesDeliver | src/Taint.cc:97-118 | after a call, what an argument or the pointer it casts has is in that parameter of every callee that is not skipped |
| TaintDelivery.InstructionDelivers | src/Taint.cc:91-136 | one instruction, as a source and then by its kind, delivers all of this |
| TaintDelivery.ModuleDelivers | src/Taint.cc:157-167 | a round over a module loses nothing and delivers all of this for each of its instructions, from a state in between |
| Taint.TaintPass.DoModulePass | src/Taint.cc:157-167 | the loop runs exactly the rounds up to the first that adds no slot; each changed round adds one |
| Taint.TaintPass.Run | src/IntGlobal.cc:61-87 | over all modules the changed rounds are at most the slots; every description attached anywhere has a flow from a source that carries it; exactly the source slots are marked |
| TaintFlow.InstructionSound | src/Taint.cc:91-136 | one instruction attaches nothing that no flow from a source explains, and leaves no entry empty |
| TaintFlow.ModuleSound | src/Taint.cc:157-167 | the same for any number of functions of a module |
| TaintFlow.InstructionMarks | src/Taint.cc:91-136 | after an instruction every slot it makes a source is marked, whatever else it propagates |
| TaintFlow.AllMarked | src/Taint.cc:61-63 | the marked slots are exactly those some source instruction makes a source |
| OverflowIdiom.RewriteAgreesExactly | src/OverflowIdiom.cc:48-66 | through swapped and inverted predicates the rewritten code agrees with the comparison for all values and non-zero divisors, except exactly for C = 2^k - 1 below the maximum, x = 0 and y above C |
| OverflowIdiom.RewritesExactlyIdioms | src/OverflowIdiom.cc:48-66 | a comparison is rewritten exactly when it is an equality or inequality of x with (x * y) / y, factors and sides in either order, or one of the four unsigned orders between x and C / y with C not 0 |
| OverflowIdiom.RewrittenCodeAgrees | src/OverflowIdiom.cc:75-98 | a comparison keeps its meaning at its own width when rewritten, for all values and non-zero divisors, except exactly in that case |
| OverflowIdiom.Pass.RunOnFunction | src/OverflowIdiom.cc:75-98 | exactly the idioms are replaced, in place and at their own width, and no other comparison is; each keeps its meaning except exactly in that case, the flag is exact, and the pass fails exactly when some bound is a division of zero |
| OverflowIdiom.BoundRewriteIsRight | src/OverflowIdiom.cc:112-145 | the rewrite of x > C / y is right for all x and all non-zero y exactly when C is the maximum or C + 1 is no power of two, and there is one exactly when C is not 0 |
| OverflowIdiom.LostProduct | src/OverflowIdiom.cc:104-110 | dividing the wrapped product does not give the factor back exactly when the product overflows |
| OverflowIdiom.MatchBoundMeaning | src/OverflowIdiom.cc:112-145 | each of the three replacements of x > C / y, with the one deviating case |
| OverflowIdiom.MaskMeaning | src/OverflowIdiom.cc:122-135 | the three-way disjunction at width k is true exactly when x, y or the product exceeds C |
| OverflowIdiom.WideMeaning | src/OverflowIdiom.cc:136-144 | at twice the width the product does not wrap |
| OverflowIdiom.CrashesExactlyOnZeroBound | src/OverflowIdiom.cc:122-124 | an integer type of no bits is asked for exactly when the constant is 0 |
| OverflowIdiom.ReplacementDiffersOnZero | src/OverflowIdiom.cc:122-135 | at every width above one bit, 0 > 1 / 2 is false and its replacement true |
| OverflowSimplify.SAddExact | src/OverflowSimplify.cc:132-152 | at every width the bound comparison is the true overflow bit |
| OverflowSimplify.UAddExact | src/OverflowSimplify.cc:154-166 | the same for unsigned addition |
| OverflowSimplify.SSubExact | src/OverflowSimplify.cc:168-182 | the same for subtracting a constant |
| OverflowSimplify.SSubFromCommentExact | src/OverflowSimplify.cc:185-187 | the comment's formula for subtracting from a constant is the true overflow bit |
| OverflowSimplify.SSubFromTestNeverHolds | src/OverflowSimplify.cc:183-193 | the code's formula for subtracting from a constant is never true |
| OverflowSimplify.ConstantMinusDeviates | src/OverflowSimplify.cc:183-193 | subtracting from a constant keeps its bit for every operand exactly when the constant is -1 |
| OverflowSimplify.USubExact | src/OverflowSimplify.cc:201-212 | the comparison is the true overflow bit with a constant on either side or none |
| OverflowSimplify.SMulExact | src/OverflowSimplify.cc:214-246 | with truncating division the two bounds are the true overflow bit for every constant but -1 |
| OverflowSimplify.SMulByMinusOne | src/OverflowSimplify.cc:230-237 | for -1 the bit is true for every operand, which is right exactly for SMIN |
| OverflowSimplify.UMulExact | src/OverflowSimplify.cc:248-266 | the bound comparison is the true overflow bit |
| OverflowSimplify.SimplifiedMeaning | src/OverflowSimplify.cc:88-266 | for every operation and assignment the result is the wrapped result, and the bit is the true one except exactly in the two deviating families |
| OverflowSimplify.OrderedIsStable | src/OverflowSimplify.cc:88-119 | calls on the same two names end with the same operands in the same places, and ordering twice changes nothing |
| OverflowSimplify.OrderedMeaning | src/OverflowSimplify.cc:88-119 | the operands stay the two there were, in lexicographic order of their names |
| OverflowSimplify.Intrinsic.Canonicalize | src/OverflowSimplify.cc:88-119 | the right constant first, else the left, else operands swapped in place into name order, with an exact change flag |
| OverflowSimplify.Intrinsic.Simplify | src/OverflowSimplify.cc:53-86 | one call of the pass keeps the meaning of the call for every assignment, except exactly in the deviating families, and says whether it changed anything |
| OverflowSimplify.RunOnFunction | src/OverflowSimplify.cc:53-86 | over all calls of a function: each keeps its meaning for every assignment, except exactly in the deviating families, and the flag is true exactly when some call changed |
| CmpOverflow.ExactCheckIff | src/CmpOverflow.cc:105-130 | for each of the ten predicates, the constants for which the check admits exactly the x with a + x * b <= UMAX |
| CmpOverflow.UnsignedCheck | src/CmpOverflow.cc:121-122 | an unsigned check, strict or not, is exact, admits an overflow or rejects a safe x according to where it stops against (UMAX - a) / b |
| CmpOverflow.JudgeMeaning | src/CmpOverflow.cc:105-130 | a right check that is not strict is never reported; a reported check is wrong unless it is strict with constant (UMAX - a) / b + 1; a wrong unsigned check or equality admits an overflow in mode 0 and in mode 1 when that wraps, and otherwise only rejects safe values |
| CmpOverflow.StrictCheckReported | src/CmpOverflow.cc:105-130 | the right strict check is reported exactly when UMAX / b is (UMAX - a) / b + 1 |
| CmpOverflow.EightBitStrictCheck | src/CmpOverflow.cc:105-130 | at eight bits x < 15 is right for 16 + x * 16 and reported, while x <= 14, the same check, is not |
| CmpOverflow.TableIsPassed | src/CmpOverflow.cc:64-91 | the table holds exactly the x of affine arguments, each with a pair really passed |
| CmpOverflow.PartsMeaning | src/CmpOverflow.cc:64-91 | an affine argument has the value a + x * b at its width, for every value of its unknowns |
| CmpOverflow.LastIsKept | src/CmpOverflow.cc:64-91 | the table has for each x the pair of the last argument that is affine in it |
| CmpOverflow.OrientedMeaning | src/CmpOverflow.cc:105-112 | a comparison read with its constant on the right still says the same |
| CmpOverflow.WrongBoundIsReported | src/CmpOverflow.cc:105-130 | the exact answer to a comparison of x with a constant on either side, for the last a + x * b passed to a call: silence for (UMAX - a) / b, mode 0 for UMAX / b, mode 1 for UMAX / b - a, wrapped, and silence for every other constant |
| CmpOverflow.Pass.Collect | src/CmpOverflow.cc:64-91 | a later affine argument on the same x replaces an earlier one |
| CmpOverflow.Pass.CheckAxB | src/CmpOverflow.cc:105-130 | the verdict for a comparison, with the constant on either side, whatever its predicate |
| CmpOverflow.Pass.RunOnFunction | src/CmpOverflow.cc:33-47 | each report is about an affine value passed to some call, and says of the comparison, with its predicate and operand order, what JudgeMeaning states; the table is cleared |
| BoolectorShift.Amount | src/SMTBoolector.cc:231-234 | the exponent's power reaches the width, and the slice of the amount exists |
| BoolectorShift.AmountIsLeast | src/SMTBoolector.cc:231-234 | the exponent is the least whose power reaches the width |
| BoolectorShift.Boolector.LowerShift | src/SMTBoolector.cc:229-249 | the operand has the width the shift demands, one new reference remains, and every intermediate node is released |
| BoolectorShift.LoweredMeaning | src/SMTBoolector.cc:229-261 | for every amount: the amount counts modulo the chosen power, and at other widths an arithmetic shift is a logical one |
| BoolectorShift.LoweredIsExact | src/SMTBoolector.cc:251-261 | for every amount below the width left and logical shifts are the opcode's; an arithmetic one is exactly when the width is a power of two, the operand is not negative, or nothing is shifted |
| BoolectorShift.ThreeBitShiftDiffers | src/SMTBoolector.cc:229-261 | at three bits, -4 shifted right by one arithmetically is -2, and its lowering is 2 |
| BoolectorQueries.LoweredAgrees | src/SMTBoolector.cc:229-261 | a formula has the same value in the backend wherever each of its shifts is one that the lowering keeps |
| BoolectorQueries.ConstantShiftsAreKept | src/SMTBoolector.cc:251-257 | a function that shifts left and logically right by constants below the width is one whose shifts the lowering keeps |
| BoolectorQueries.BackendIsRight | src/SMTBoolector.cc:229-261 | for a function whose shifts the lowering keeps, a backend that is right about lowered formulas is right about every query of both detectors |
| IntRewrite.IntRewrite.VisitUses | src/IntRewrite.cc:223-247 | one worklist step handles every use or stops at an observer that keeps the check |
| IntRewrite.IntRewrite.Search | src/IntRewrite.cc:211-248 | the worklist terminates, having visited exactly the def-use closure through used, unobservable users and collected exactly the blocks of its observers, all strictly dominated |
| IntRewrite.IntRewrite.InsertOverflowCheck | src/IntRewrite.cc:185-256 | one check at the operation exactly when it is signed without -fwrapv or some observer keeps it there; otherwise one at the end of each observer's block, each strictly dominated, so that wherever the value shows there is a check; the flag is cleared under -fwrapv; pointer subtractions get none |
| IntRewrite.IntRewrite.InsertAtEnds | src/IntRewrite.cc:250-254 | exactly one check per block, in any order |
| IntRewrite.ObservesByFields | src/IntRewrite.cc:165-183 | the observers are exactly the loop-exiting branches, and the other instructions that must not be executed early, at the end of a chain of used values that do not show themselves |
| IntRewrite.KeptBackByFields | src/IntRewrite.cc:226-238 | a check stays at its operation exactly when the value shows in the operation's own block or in one that can be entered without passing through it |
| IntRewrite.IntRewrite.InsertDeferred | src/IntRewrite.cc:211-256 | the search decides: a check at the operation exactly when some observer keeps it there, else one in each observer's block |
| IntRewrite.FinishedSearchIsComplete | src/IntRewrite.cc:218-248 | when the worklist is empty the visited values are exactly those reached, and every observer has its block |
| IntRewrite.KeptBackByNeighbourOrPhi | src/IntRewrite.cc:232-236 | in SSA form only an observer in the operation's own block or a phi keeps a check back; loops never make another observer's block undominated |

## Left out

- Taint.TaintPass.Run: does not claim that every flow is followed, because local taint and growing descriptions are not counted as change (src/Taint.cc:129, src/IntGlobal.h:64-67); that every step and every round delivers what it must is TaintDelivery.ModuleDelivers.
- BoolectorQueries.BackendIsRight: leaves one-bit shifts out, and evaluates lowered formulas rather than building Boolector's nodes for operations other than shifts.
- CmpSat.Check: assumes that in a run every load gives a value inside its range metadata, because Range's values are not tied to concrete runs, and that the run takes no overlooked edge.
- IntSat.QueryOverflow: makes the same two assumptions.
- Range.RangePass.UpdateFunction: takes what each site of a function contributes as a parameter, because the transfer functions (src/Range.cc:200-448) are not modelled.
- OverflowIdiom.Pass.RunOnFunction: does not delete the operands that a replaced comparison leaves dead.
- Range.RangePass.Run: does not relate ranges to concrete runs, because the transfer functions are deliberately rough; what a function contributes at a site is any function of the ranges it was started with.
- RunSoundness.DominatorGuardHolds: assumes that no overlooked edge is taken; that one edge formula fails exactly on such an edge is RunSoundness.StepEdgeHolds.
- IntRewrite.IntRewrite.InsertOverflowCheck: sees the use lists as they stand when it is called; the uses that earlier checks add to other operations are not modelled.
- LLVM's back-edge search, dominator tree, loop analysis and speculation test: given by the predicates they establish or as parameters; blocks and values are named in an order those predicates allow, which is no restriction.
- LLVM's interval class: a contract (a union covers, a full set stays, resizing covers), on sets of values; the precision results ask for operations that add no value, which a union of two intervals with a gap between them does.
- The solver: a correct, or correct and complete, decision procedure as a parameter, which a backend with lowered shifts is under BoolectorQueries.BackendIsRight; the Z3 and Sonolar backends, models and timeouts are foreign code.
- Undefined values: one fixed arbitrary value, except that a phi that receives one may take any.
- Undefined operations, such as a division by zero or an over-long shift: the interpreter and the evaluator share one total meaning.
- Constant address expressions: instructions of the entry block.
- Evaluation order of C++ call arguments: left to right.
- The recursion over nested initializers (src/CallGraph.cc:17-49, src/Range.cc:141-181): a list of slot and constant pairs per module.
- The set that findFunctions grows in place (src/CallGraph.cc:152): passed and returned, not aliased with the slot it belongs to.
- CmpOverflow's checkXY: it never reports (src/CmpOverflow.cc:152).
- Division, shift and array checks of IntRewrite, IdealShift, IntLibcalls, CmpTautology, LoadRewrite: one-branch rewrites, or LLVM analyses not part of this repository.
- Diagnostics, annotations, file loading and writing back: input and output.
