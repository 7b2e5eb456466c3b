# A verified model of Alive2's encoder

Alive2 turns LLVM functions into SMT formulas and checks that one refines another.
This project models the parts of it that decide whether the formula says what the
function does, and proves them right for all inputs.

- Control flow (`Cfg`, `TopSort`, `LinkTree`, `Dominators`, `SpanningTree`, `Unroll`): the
  order of the blocks, dominators on every graph, the depth-first spanning tree that loop
  detection starts from, and the cloning and patching of loop unrolling.
- Terms (`Bits`, `Terms`, `BitLaws`, `SmartExpr`, `SmartMeaning`, `SmartArith`,
  `ArithMeaning`, `ConcatEq`, `WordMeaning`, `Overflow`): the rewriting constructors of the expression
  layer, over bit-vectors of every width. A term has a value under a valuation, or none
  where a division that decides it is undefined; a division in a branch that is not taken, or
  beside an operand that already decides an `and` or `or`, does not matter. Each
  constructor's result has the value the operator has on its operands' values, wherever that
  is defined.
- Guarded values (`Disjoint`, `Total`, `Choices`): the map from values to exclusive
  conditions, taking a term apart into one, and the encoding of nondeterministic choices.
- Symbolic execution (`SymModel`, `SymTrack`, `SymExec`, `SymState`, `SymRun`, `Executor`):
  one sweep over the blocks of an acyclic (or cut-off) function in single-assignment form
  agrees with every concrete run. `UndefStrip` takes undef values out of branch conditions,
  with the ranges of values that `Arcs` compares; `FnCalls` abstracts how often each function
  was called.
- Memory (`Lanes`, `MemBytes`, `MemTypes`, `MemBlocks`, `Liveness`, `LocalAddr`, `Deref`):
  packing of vectors and aggregates, bytes with poison bits, stores and loads of nested
  types, the tags of blocks, liveness, addresses of local blocks, and the test for an
  allowed access with what it leaves of the pointer.
- Library loops (`LoopApprox`): the bounded encoding of unbounded loops, with strlen and
  memcmp.

Bit-vectors are sequences of bits, lowest first; `Deref`, `LocalAddr` and `LoopApprox` use
numbers. The memory modules work on the values of terms under one valuation, and what the
expression layer could fold is an arbitrary but sound guess there. Iteration over hash maps
and ordered sets of terms is in arbitrary order. Results that are false of the code are
stated as such, with an input that shows it and the exact condition under which the code is
right:

- `Choices`: a lookup gives the value of an entry also where no key matches; it gives the
  default there iff all keys are surely apart (`Choices.DefaultIffApart`,
  `Choices.DefaultMissed`).
- `ArithMeaning`: the unsigned comparison with 2^64 - 1 in a wider word
  (`ArithMeaning.MkUgtExact`, `ArithMeaning.UgtWraps`).
- `ConcatEq`: concatenations that can be equal are folded to different; the rule is right iff
  no constant ends inside the one it is compared with (`ConcatEq.RuleRight`,
  `ConcatEq.EqualButRefuted`).
- `SpanningTree`: a cycle without a back edge; a jump is found whatever the order of the jump
  targets iff its target dominates its source (`SpanningTree.AlwaysBackIffDominates`,
  `SpanningTree.MissedCycle`).
- `TopSort`: a block can come before all that jump to it; the condition under which none does
  is exact (`TopSort.Sort`, `TopSort.LateHeader`).
- `UndefStrip`: zeros above an undef variable can make the added condition stronger than
  needed; when they do not is stated for each comparison (`UndefStrip.StripExact`,
  `UndefStrip.PaddedOnLeft`, `UndefStrip.PaddedOnRight`, `UndefStrip.PaddedIsConservative`).
- `Lanes`: a vector with a partly poison lane does not survive the way through an integer
  (`Lanes.IntRoundTrip`).
- `Liveness`: whether a block that does not exist is alive depends on what is known, iff all
  bits are set (`Liveness.LoadIsLookup`).
- `Deref`: accesses past the largest offset of a large block are refused, and some access
  sizes of half the range of offsets and more are wrongly accepted; the sizes for which the
  test is right are stated exactly (`Deref.BoundsRight`, `Deref.WrongAt`,
  `Deref.LargeBlockRefused`).

To check everything: `dafny verify dfyconfig.toml`.

## Model

| member | source | states |
|---|---|---|
| Dominators.DomTree.BuildPredecessors | ir/function.cpp:862-874 | a block is listed among the predecessors of another iff it jumps to it, in ascending order; a repeated target repeats it |
| Dominators.DomTree.Intersect | ir/function.cpp:903-912 | the nearest common ancestor of two blocks in the current tree; it terminates because order strictly falls along dominator links |
| Dominators.DomTree.BuildDominators | ir/function.cpp:859-901 | on every graph, cyclic ones included, the fixpoint loop ends and the ancestors of every block are exactly its dominators (blocks on every path from the entry); at most one more than the number of blocks passes, at most two when every jump goes forward |
| Dominators.DomTree.Pass | ir/function.cpp:885-900 | one pass keeps the ancestors of every block between its dominators and what no path with fewer retreating jumps than passes can avoid; it changes nothing exactly when the tree is stable |
| Dominators.DomTree.DominatesBlock | ir/function.cpp:919-931 | the answer is true iff every path from the entry to `b` contains `a` |
| Dominators.DomTree.GetIDominator | ir/function.cpp:914-917 | the immediate dominator: it dominates the block, and every other strict dominator dominates it |
| Dominators.StableIsExact | ir/function.cpp:881-900 | a tree that a pass leaves unchanged is the dominator tree |
| Dominators.ExactIsStable | ir/function.cpp:881-900 | conversely a pass leaves the dominator tree unchanged |
| Dominators.VisitUpper | ir/function.cpp:885-900 | relinking one block keeps, for every block below it too, the upper bound on ancestors |
| Dominators.VisitLower | ir/function.cpp:885-900 | relinking one block never loses a dominator of any block |
| Dominators.SettlesEventually | ir/function.cpp:881-900 | after as many retreating jumps as there are blocks the bound is the set of dominators, so the loop ends |
| SpanningTree.LoopAnalysis.GetDepthFirstSpanningTree | ir/function.cpp:948-977 | the numbers are a bijection with the blocks, each number's parent is its smallest predecessor, and `[number, last]` is exactly the subtree of each number; the worklist empties |
| SpanningTree.LoopAnalysis.ClassifyJumps | ir/function.cpp:979-997 | a jump is put among the back edges iff its target is an ancestor of its source in the spanning tree |
| SpanningTree.NumberSpannedAt | ir/function.cpp:955-976 | numbering one more block keeps every open and closed interval equal to a subtree |
| SpanningTree.AllNumbered | ir/function.cpp:950-977 | when the worklist is empty every reachable block is numbered |
| SpanningTree.Laminar | ir/function.cpp:948-977 | two intervals are nested or disjoint |
| SpanningTree.DominatingTargetIsAncestor | ir/function.cpp:988-996 | a jump whose target dominates its source always goes to an ancestor, so it is found as a back edge |
| SpanningTree.MissedUnderSomeOrder | ir/function.cpp:948-977 | if the target of a jump does not dominate its source, some order of the jump targets numbers the blocks so that the target is no ancestor |
| SpanningTree.AlwaysBackIffDominates | ir/function.cpp:948-997 | a jump is found as a back edge under every order of the jump targets iff its target dominates its source |
| SpanningTree.DominatedCycleFound | ir/function.cpp:988-996 | a cycle with a block that dominates the others always has a back edge |
| SpanningTree.MissedCycle | ir/function.cpp:988-996 | a cycle with two entries can have no back edge at all (concrete graph) |
| TopSort.Sorter.Visit | util/sort.cpp:13-24 | everything reachable from the block that was not yet marked is marked and put before it, in an order in which jumps go backwards only within cycles |
| TopSort.Sort | util/sort.cpp:26-38 | the result is an order of all blocks in which jumps go backwards only within cycles; if nothing jumps to the entry it comes first, and every other block has a predecessor before it iff the graph is orderable |
| TopSort.AcyclicOrderable | ir/function.cpp:329-360 | a graph without cycles whose blocks are all reachable is orderable |
| TopSort.GoodStaysGood | ir/function.cpp:329-360 | a graph in which every block already has a predecessor before it is orderable |
| TopSort.SortedGraph | ir/function.cpp:329-360 | in its new order the graph is as the dominator analysis needs it iff every block has a predecessor before it, and without cycles every jump goes forward |
| TopSort.LateHeader | util/sort.cpp:26-38 | a loop whose header comes after its body is not orderable although all of it is reachable (concrete graph) |
| Unroll.Function.UnrollLoop | ir/function.cpp:493-576 | the graph after cloning and patching, stated block by block: version `u` of a block jumps where the original does, to the same version, the next one for the header, or the sink; the paths of the unrolled graph that stay out of the sink are exactly the original ones whose stretches inside the loop have fewer than `k` returns to the header, or end with the `k`-th in a loop of more than one block |
| Unroll.Function.PatchBlock | ir/function.cpp:548-575 | patching the jumps of one version one at a time rewrites each jump exactly once |
| Unroll.Function.ReplaceTargetWith | ir/function.cpp:560-574 | replaces every jump to one target and no other |
| Unroll.JumpExact | ir/function.cpp:548-575 | the jumps of the unrolled graph out of an existing version are exactly those of its original |
| Unroll.LiftIsPath | ir/function.cpp:493-576 | every original path within the unroll count has a counterpart in the unrolled graph that erases to it |
| Unroll.PathIsLift | ir/function.cpp:493-576 | every path of the unrolled graph that avoids the sink erases to an original path, and is its counterpart |
| Unroll.UncoveredReachesSink | ir/function.cpp:566-572 | a path is cut off at the sink exactly where the unroll count runs out |
| Unroll.FewCrossingsCovered | ir/function.cpp:493-576 | fewer than `k` returns to the header are always covered |
| Unroll.PathsExact | ir/function.cpp:493-576 | counted on the original graph by its returns to the header alone: a path has a counterpart in the unrolled graph iff each of its stretches inside the loop has fewer than `k` returns, or ends with the `k`-th in a loop with other blocks; the counterpart is unique |
| Unroll.SinkExact | ir/function.cpp:560-572 | a counterpart can go on to the sink iff the original can go on to what has no counterpart, or to the sink itself |
| Unroll.LastIteration | ir/function.cpp:539-576 | the `k`-th return to the header is kept iff the loop has other blocks, and so is leaving the loop from there; anything else from there goes to the sink |
| Unroll.LastOfOneBlock | ir/function.cpp:539-576 | in a loop of one block already the `k`-th return goes to the sink |
| Unroll.VersionsAcyclic | ir/function.cpp:493-576 | if the loop without its header jumps is acyclic, so are its versions |
| Terms.EvalSort | smt/expr.cpp:424-427 | a well-sorted term has a value of its sort and width, unless a division that decides it is undefined |
| SmartMeaning.MkNotMeans | smt/expr.cpp:1236-1247 | negation keeps the meaning |
| SmartMeaning.MkAndMeans | smt/expr.cpp:1404-1413 | conjunction keeps the meaning |
| SmartMeaning.MkOrMeans | smt/expr.cpp:1415-1429 | disjunction keeps the meaning, with the complement rule |
| SmartMeaning.MkImpliesMeans | smt/expr.cpp:1455-1459 | implication keeps the meaning |
| SmartMeaning.MkIfMeans | smt/expr.cpp:1843-1874 | if-then-else keeps the meaning through the boolean and one-bit rewrites |
| SmartMeaning.MkEqMeans | smt/expr.cpp:1253-1394 | equality keeps the meaning: base plus offset, aligned concatenations, if-then-else, sign extensions, remainders |
| ConcatEq.Refute | smt/expr.cpp:1306-1342 | the loop over the arguments of two concatenations says that they differ iff some pair of constants compares unequal where the rule looks |
| ConcatEq.DifferExact | smt/expr.cpp:1316-1336 | constants that do not end inside each other are found to differ iff they have different bits at some place of the word |
| ConcatEq.RefutedRight | smt/expr.cpp:1316-1336 | without constants that end inside their counterpart, concatenations said to differ have no value in common |
| ConcatEq.NestedWrong | smt/expr.cpp:1322-1336 | every other layout has constants for which concatenations with a common value are said to differ |
| ConcatEq.RuleRight | smt/expr.cpp:1316-1336 | the rule is right for all constants in two layouts iff no constant ends inside its counterpart without starting before it |
| ConcatEq.TermsDiffer | smt/expr.cpp:1306-1342 | then terms that the rule folds to false differ under every valuation |
| ConcatEq.EqualButRefuted | smt/expr.cpp:1322-1336 | two terms that are equal under a valuation and folded to false (concrete terms) |
| SmartMeaning.EqArithMeans | smt/expr.cpp:1355-1390 | the arithmetic rules of equality keep the meaning wherever the divisions in them are defined |
| SmartMeaning.MkUleMeans | smt/expr.cpp:1467-1478 | unsigned comparison keeps the meaning, with the leading-zero and trailing-one bound |
| SmartMeaning.MkUltMeans | smt/expr.cpp:1480-1487 | strict unsigned comparison keeps the meaning |
| SmartMeaning.LeadingZerosBound | smt/expr.cpp:579-588 | a term is below two to the width minus its leading zeros |
| SmartMeaning.TrailingOnesBound | smt/expr.cpp:590-595 | a term is at least its trailing ones |
| SmartMeaning.MkConcatMeans | smt/expr.cpp:1599-1625 | concatenation keeps the meaning when it joins neighbouring extractions |
| SmartMeaning.MkExtractMeans | smt/expr.cpp:1631-1717 | extraction keeps the meaning through extractions, sign extensions, concatenations, if-then-else and masks, at every depth |
| SmartMeaning.MkSextMeans | smt/expr.cpp:1564-1577 | sign extension keeps the meaning |
| SmartMeaning.MkZextMeans | smt/expr.cpp:1579-1583 | zero extension keeps the meaning |
| SmartMeaning.IsNegativeMeans | smt/expr.cpp:418-422 | the sign test keeps the meaning |
| ArithMeaning.MkAddMeans | smt/expr.cpp:651-661 | addition keeps the meaning, with the rule that adds below a concatenation |
| ArithMeaning.MkSubMeans | smt/expr.cpp:663-668 | subtraction is the difference modulo the word size |
| ArithMeaning.MkMulMeans | smt/expr.cpp:670-677 | multiplication keeps the meaning, by shifts for powers of two |
| ArithMeaning.MkCommutativeMeans | smt/expr.cpp:597-634 | units, zeros, constant folding and re-association of a commutative operator keep the meaning |
| ArithMeaning.MkUdivMeans | smt/expr.cpp:692-700 | unsigned division keeps the meaning where it is defined |
| ArithMeaning.MkUremMeans | smt/expr.cpp:715-729 | unsigned remainder keeps the meaning where it is defined, by masking for powers of two |
| ArithMeaning.MkSdivMeans | smt/expr.cpp:679-690 | signed division keeps the meaning where it is defined |
| ArithMeaning.MkSremMeans | smt/expr.cpp:702-713 | signed remainder keeps the meaning where it is defined, unsigned for non-negative operands |
| ArithMeaning.MkShlMeans | smt/expr.cpp:827-841 | left shift keeps the meaning, by concatenation for constants |
| ArithMeaning.MkLshrMeans | smt/expr.cpp:850-864 | logical right shift keeps the meaning |
| ArithMeaning.MkAshrMeans | smt/expr.cpp:843-848 | arithmetic right shift keeps the meaning |
| ArithMeaning.MkBvAndMeans | smt/expr.cpp:1164-1207 | bitwise and keeps the meaning, with contiguous masks and one-bit conditions |
| ArithMeaning.KeepMaskedMeans | smt/expr.cpp:1176-1193 | and with a contiguous mask is the masked bits between zeros |
| ArithMeaning.GetBoolMeans | smt/expr.cpp:1153-1162 | the condition of a one-bit if-then-else |
| ArithMeaning.MkBvOrMeans | smt/expr.cpp:1209-1224 | bitwise or keeps the meaning |
| ArithMeaning.MkBvXorMeans | smt/expr.cpp:1226-1234 | bitwise exclusive or keeps the meaning |
| ArithMeaning.MkUgtExact | smt/expr.cpp:1493-1503 | the comparison is right for every left operand iff the numeral is not 2^64 - 1 in a wider word |
| ArithMeaning.UgtWraps | smt/expr.cpp:1498-1500 | zero counts as greater than 2^64 - 1 in a wider word |
| ArithMeaning.MkStoreMeans | smt/expr.cpp:1804-1816 | a store after a store to the same index replaces it, at every index |
| ArithMeaning.MkLoadMeans | smt/expr.cpp:1818-1841 | a load reads through stores whose index is decided |
| Disjoint.DisjointExpr.Split | smt/exprs.cpp:110-180 | taking a term apart gives a partition: under every valuation exactly one domain holds and its value is the value of the term, at every depth and whenever the growth cut-off strikes; with enough memory, an if-then-else with fewer than 32 branches, none a concatenation or extraction, is taken apart into its branches and no value is an if-then-else |
| Disjoint.DisjointExpr.PairAll | smt/exprs.cpp:138-159 | the pieces of a concatenation are a partition of it, also where a domain is shared or its condition is used to simplify |
| Disjoint.DisjointExpr.SplitExtract | smt/exprs.cpp:161-171 | the pieces of an extraction are a partition of it |
| Disjoint.SimplifyMeans | smt/exprs.cpp:88-108 | simplifying under a condition keeps the value where the condition has the assumed truth value |
| Disjoint.DisjointExpr.Add | smt/exprs.h:63-74 | the map after adding: domains of equal values are joined, a true domain drops the rest |
| Disjoint.AddActive | smt/exprs.h:63-74 | adding under a condition that excludes the others changes exactly which value is meant |
| Disjoint.DisjointExpr.Value | smt/exprs.h:84-93 | the joined term has the value of the one domain that holds, in whatever order the map is read |
| Disjoint.DisjointExpr.LookupIn | smt/exprs.h:95-101 | a value whose domain is that term, if there is one |
| Disjoint.RebuildIsSame | smt/exprs.h:84-93 | taking apart and joining again gives the value of the term |
| Total.AddDisj | smt/exprs.h:76-82 | joining another map under a condition: its values take over exactly where the condition holds |
| Executor.State.StartBB | ir/state.cpp:551-588 | where the block's path condition holds the run is in the block and the joined memory, UB condition and registers are those of the predecessor taken; no defined run is missed; a skipped block is entered by no defined run |
| Executor.State.AddJump | ir/state.cpp:590-609 | one more guarded jump on record; blocks already seen are replaced by the sink |
| Executor.State.ExecJumps | ir/state.cpp:611-627 | the edges out of a block: an edge condition holds only if the run takes the edge, and does if its behaviour is defined |
| Executor.State.ExecSwitch | ir/instr.cpp:3128-3143 | a switch records exactly one jump that holds, to the target of the case that matches, for distinct cases |
| Executor.State.AddUB | ir/state.cpp:641-646 | the condition for defined behaviour becomes the conjunction |
| Executor.State.AddReturn | ir/state.cpp:629-639 | where no other return is on, exactly its value and memory are added under the path condition, the return condition holds if the behaviour so far is defined, and nothing after it is defined |
| Executor.State.PhiTerm | ir/instr.cpp:2984-2998 | the phi has the value of the operand for the block the run came from |
| Executor.State.ExecInstr | ir/state.cpp:641-646 | registers, memory and UB condition follow the concrete run through one instruction |
| Executor.State.Run | util/symexec.cpp:46-64 | one sweep over the blocks in order keeps the agreement with every run |
| Executor.State.SinkDomain | ir/state.cpp:1015-1025 | the disjunction of the conditions of all jumps to the sink |
| Executor.BlockCondition | ir/state.cpp:17-19 | the path and UB condition of a block holds iff the run enters the block with its behaviour defined |
| Executor.RunAgrees | ir/state.cpp:629-639 | every run: the return condition holds iff the run returns with defined behaviour, with its value and memory; the sink condition holds only if the run ends there, and does if its behaviour is defined |
| SymExec.OnePredecessor | ir/state.cpp:567-582 | two predecessors never both jump to a block, so their conditions exclude each other |
| SymState.JumpTaken | ir/state.cpp:611-627 | of a terminator's guarded jumps exactly the one the run makes is on |
| SymState.SwitchTaken | ir/instr.cpp:3128-3143 | of a switch's jumps exactly the one to the chosen target is on |
| SymModel.SubstMeans | ir/state.cpp:388-441 | substituting register terms evaluates as the environment does |
| WordMeaning.SumAndProduct | smt/expr.cpp:651-677 | the sum and the product of words are those of their numbers modulo two to the width |
| WordMeaning.UnsignedDivision | smt/expr.cpp:692-729 | where division is defined, quotient times divisor plus remainder is the dividend, and the remainder is below the divisor |
| WordMeaning.UnsignedShifts | smt/expr.cpp:827-864 | shifting up multiplies by a power of two modulo the width, shifting down divides, for every shift amount |
| WordMeaning.ArithmeticShift | smt/expr.cpp:843-848 | an arithmetic shift divides the signed number by a power of two and rounds down |
| WordMeaning.SignedDivision | smt/expr.cpp:679-713 | signed quotient and remainder give back the dividend; the remainder is smaller than the divisor and has the sign of the dividend |
| UndefStrip.StripExact | ir/state.cpp:185-364 | every shortcut is sound, also with zeros above an undef variable: its condition implies that the expression has the same value for every choice of the undef variables, and its replacement then has that value; it is exact for an undef variable, for a single input, and for a comparison iff what the values the sides can take decide is what the shortcut takes for decided |
| UndefStrip.PlainExact | ir/state.cpp:185-364 | without zeros above an undef variable every shortcut is exact |
| UndefStrip.LeftStripped | ir/state.cpp:273-279 | a comparison with a possibly undef left side, with or without an added constant: sound, and when it is exact |
| UndefStrip.RightStripped | ir/state.cpp:280-284 | a comparison with a possibly undef right side |
| UndefStrip.BothStripped | ir/state.cpp:285-328 | a comparison of two possibly undef sides, with the extreme values that decide it |
| UndefStrip.TestStripped | ir/state.cpp:268-364 | whichever side may be undef |
| UndefStrip.PairFixed | ir/state.cpp:268-364 | a comparison has the same value for every choice iff the ranges of values of its sides decide it |
| UndefStrip.PaddedOnLeft | ir/state.cpp:201-216 | for zeros above an undef variable on the left of each comparison, the values of the other side for which the shortcut is exact |
| UndefStrip.PaddedOnRight | ir/state.cpp:201-216 | the same with the undef variable on the right |
| UndefStrip.PaddedIsConservative | ir/state.cpp:201-216 | a test for which the condition the shortcut adds is false although its value never changes (concrete term) |
| UndefStrip.InputExact | ir/state.cpp:247-250 | a single possibly undef input |
| UndefStrip.UndefExact | ir/state.cpp:186-189 | an undef variable is never the same for every choice |
| UndefStrip.ShapeReaches | ir/state.cpp:210-242 | an undef input, below zeros or plus a constant, takes every value of its range |
| UndefStrip.FallbackExact | ir/state.cpp:369-378 | the condition that substitutes fresh variables holds for all their values iff the expression has a value and it is the same for every choice |
| UndefStrip.ShortcutMatchesFallback | ir/state.cpp:185-378 | where a shortcut is exact, its condition holds iff that of the fallback does |
| Arcs.DecidedSame | ir/state.cpp:295-364 | if the ranges decide a comparison, it comes out the same for all their values |
| Arcs.Undecided | ir/state.cpp:295-364 | otherwise it comes out both ways |
| UndefStrip.SleMeans | smt/expr.cpp:1505-1510 | signed comparison keeps the meaning |
| Choices.Ilog2CeilLeast | util/compiler.cpp:24-31 | without rounding powers of two up, the least exponent whose power reaches the number |
| Choices.WidthSuffices | smt/exprs.h:140-141 | the selector has room for every option and one number more |
| Choices.ChoiceExpr.Add | smt/exprs.h:116-124 | an option is enabled where it was or where the new domain holds for it |
| Choices.ChoiceExpr.Domain | smt/exprs.h:130-136 | the domain holds iff some option is enabled |
| Choices.ChoiceExpr.Choose | smt/exprs.h:139-162 | the selector picks options by position, and a selector past the end is allowed only where no option is enabled |
| Choices.SelectorExists | smt/exprs.h:139-162 | under every valuation some selector value satisfies the precondition |
| Choices.EnabledPickable | smt/exprs.h:139-162 | every enabled option can be picked |
| Choices.PickedEnabled | smt/exprs.h:139-162 | where some option is enabled, an allowed selector picks an enabled one |
| Choices.FunctionExpr.Apply | smt/exprs.cpp:196-202 | where the keys differ from each other the result has the value of the entry that matches; it is the default if all keys are surely apart, else it has the value of an entry that is not, under every valuation |
| Choices.DefaultIffApart | smt/exprs.cpp:196-202 | where no key matches, and the default differs from every entry, the lookup gives the default iff all keys are surely apart |
| Choices.DefaultMissed | smt/exprs.cpp:196-202 | a lookup that gives the value of an entry although no key matches (concrete table) |
| Choices.UnmatchedNotApart | smt/exprs.cpp:196-202 | two keys can be different under a valuation without being surely apart |
| FnCalls.FnCallRanges.Inc | ir/state.cpp:57-72 | the possible counts of the name all go up by one, from zero if it was absent; the flag is set if it was or the call sets it, and other names are as they were |
| FnCalls.FnCallRanges.MeetWith | ir/state.cpp:33-55 | per name the union of the possible counts, an absent name standing for zero; a name is flagged if either side flags it |
| FnCalls.FnCallRanges.Overlaps | ir/state.cpp:74-101 | true iff the two sides share a count of calls for every name that neither flags as memory-restricted |
| FnCalls.FnCallRanges.Project | ir/state.cpp:103-111 | the possible counts of one name are those it had, not flagged, and no other function is called |
| FnCalls.IncContains | ir/state.cpp:57-72 | a path that makes one more call stays within the ranges |
| FnCalls.PathCounts | ir/state.cpp:33-72 | after any mix of calls and joins along a control-flow graph the call counts of every path lie within the ranges |
| FnCalls.CountsExact | ir/state.cpp:33-72 | without cycles the possible counts of a function at the end of a block are exactly the counts of the paths to it |
| Lanes.ExtractIsLane | ir/type.cpp:1032-1047 | extracting at an index known only at run time, by shifting and cutting off the top, is the lane with that number |
| Lanes.UpdateThenLane | ir/type.cpp:1051-1076 | after masking in a new lane, that lane is the new one and every other lane is unchanged |
| Lanes.LaneValue | ir/type.cpp:1032-1047 | a lane is a digit of the number that the vector is, the first lane the highest |
| Lanes.MemberOfPack | ir/type.cpp:775-804 | extracting a member of packed members gives that member back, for members of any widths |
| Lanes.PackedAbove | ir/type.cpp:746-771 | members packed first are above those packed after them |
| Lanes.MemberAt | ir/type.cpp:746-771 | padding members are zero, and the values go to the others in order |
| Lanes.AggregateVals | ir/type.cpp:746-771 | the loop that skips empty members and fills in padding packs all members, the first one highest |
| Lanes.ToInt | ir/type.cpp:914-925 | every lane of the integer, in the order of the target, is the lane of the vector, and its poison bits are all set or all clear; they are set iff all of the lane were |
| Lanes.FromInt | ir/type.cpp:931-936 | every lane of the vector is that of the integer, its poison bits all set iff all of the lane of the integer were |
| Lanes.IntLaneValue | ir/type.cpp:914-936 | lane 0 of an integer is the lowest digit on a little-endian target and the highest on others |
| Lanes.IntRoundTrip | ir/type.cpp:914-936 | through an integer and back is the identity on either kind of target exactly for vectors whose lanes are wholly poison or not at all; values and lane poison always survive |
| Lanes.VectorNpBits | ir/type.cpp:27-30 | a vector has as many poison bits as its lanes together when those of a lane come out evenly |
| MemBytes.PtrFields | ir/memory.cpp:186-207 | kind, poison bit, value and index of a pointer byte are read back from it |
| MemBytes.IntFields | ir/memory.cpp:209-229 | kind, poison bits and value of an integer byte are read back from it |
| MemBytes.PoisonBitShared | ir/memory.cpp:285-292 | with one poison bit per byte both kinds keep it in the same place, so one test serves both |
| MemBytes.PoisonFields | ir/memory.cpp:231-233 | the poison byte is poison under every layout |
| MemBytes.PoisonInRange | ir/memory.cpp:414-460 | the padding of the value is enough for the poison bits: every byte finds its own and no load reads one that was not stored |
| MemBytes.IntToBytes | ir/memory.cpp:448-463 | the bytes of an integer are its slices, lowest first |
| MemBytes.ByteValue | ir/memory.cpp:448-463 | byte `i` of a stored integer holds digit `i` of its value, the lowest first |
| MemBytes.BytesToInt | ir/memory.cpp:515-531 | the value and poison bits of the bytes joined and cut to the type, with no poison bit set for a pointer byte |
| MemBytes.LoadedInt | ir/memory.cpp:414-531 | an integer of any width comes back from its bytes with its poison bits, whatever the padding |
| MemBytes.NoIntInPtrs | ir/memory.cpp:524-529 | pointer bytes and poison bytes read as a wholly poison integer |
| MemBytes.PtrToBytes | ir/memory.cpp:434-447 | the bytes of a pointer, each with its index |
| MemBytes.BytesToPtr | ir/memory.cpp:472-513 | not poison iff all bytes are of one pointer, in order, or all are integer zeros, which read as null; the shortcut that reads the pointer bits for null is right |
| MemBytes.NullForFree | ir/memory.cpp:500-508 | where the pointer lies within the bits of an integer, an integer zero has a null pointer in it |
| MemBytes.NullIffInside | ir/memory.cpp:500-511 | the bits read as a pointer are null in every zero byte that is not poison iff they lie within those of the integer, so the shortcut is taken just where it is right |
| MemBytes.LoadedPtr | ir/memory.cpp:434-513 | a pointer comes back from its bytes, and a poison pointer as poison |
| MemTypes.StoredDigit | ir/memory.cpp:1693-1701 | digit `i` of a stored integer is in byte `i` of the block on a little-endian target and in the `i`-th byte from the end on others |
| MemTypes.StoreThenLoad | ir/memory.cpp:1678-1746 | a value of any nested type comes back from its bytes on both kinds of target, up to padding and the contents of poison |
| MemTypes.ImageField | ir/memory.cpp:1680-1692 | the bytes of a field lie where the sizes of the fields before it add up to |
| MemBlocks.Collect | ir/memory.cpp:1678-1703 | a store makes exactly one entry per byte of the type, with the byte of that place |
| MemBlocks.DataType | ir/memory.cpp:923-946 | a tag without integers means only pointer bytes; one without pointers means only integer bytes, and no zero, or in a whole store fewer zeros than a pointer has bytes; where folding decides every byte the tag names a kind only for a reason |
| MemBlocks.WriteAll | ir/memory.cpp:988-995 | writing over a block filled with the first entry and leaving out the entries equal to it is the same as writing every entry |
| MemBlocks.MemBlock.Store | ir/memory.cpp:948-1001 | within bounds the block holds the bytes as if written one by one, and the tag keeps its promise over any run of stores, naming no kind without a reason where folding decides every byte |
| MemBlocks.MemBlock.LoadBytes | ir/memory.cpp:889-921 | the bytes in order, or poison bytes if the tag excludes the kind |
| MemBlocks.MemBlock.Load | ir/memory.cpp:1719-1746 | within bounds the value is what the bytes of the block hold, although the tag may keep the load from looking |
| MemBlocks.MemBlock.LoadInt | ir/memory.cpp:1743-1746 | an integer load that the tag excludes would be wholly poison anyway |
| MemBlocks.MemBlock.LoadPtr | ir/memory.cpp:1743-1746 | a pointer load that the tag excludes would be poison anyway |
| MemBlocks.MemBlock.LoadAggregate | ir/memory.cpp:1722-1741 | every field that is not padding is loaded from where it starts |
| MemBlocks.NoInt | ir/memory.cpp:903-909 | without integers in the tag the bytes read as a wholly poison integer |
| MemBlocks.NoPtr | ir/memory.cpp:903-909 | without pointers in the tag too few bytes could be part of a pointer, so they read as poison |
| MemBlocks.PartialStore | ir/memory.cpp:984-986 | storing part of a block keeps the promise of the joined tags |
| MemBlocks.FullStore | ir/memory.cpp:970-983 | storing a whole block makes the tag of the store right for it |
| MemBlocks.StoreAndLoad | ir/memory.cpp:1705-1746 | storing any value into a block and loading it gives it back, whatever was stored before |
| Liveness.StoreIsUpdate | ir/memory.cpp:164-173 | setting or masking out a bit is an update of that block and no other |
| Liveness.LoadIsLookup | ir/memory.cpp:148-156 | shifting down and cutting off is the bit of the block the id stands for after it is cut to the width of the vector; the answer depends on what is known of the vector iff there is no such block and all bits are set |
| Liveness.Blocks.Store | ir/memory.cpp:158-178 | the update goes to the local or the other blocks and leaves the rest alone |
| Liveness.Blocks.Free | ir/memory.cpp:1644-1660 | freeing ends the life of that block only, and freeing null of none |
| Liveness.Blocks.SetState | ir/memory.cpp:1458-1481 | a heap block that is neither null nor the memory of calls, and that the call reaches by anything or by an argument that is a pointer to it, is alive after the call iff it was and the call keeps it; every other block is as it was |
| Liveness.FreeableExactly | ir/memory.cpp:1463-1479 | which blocks a call may free, in terms of the blocks and the arguments |
| Liveness.Blocks.MayFreeBlock | ir/memory.cpp:1463-1473 | a call may free a heap block that its arguments reach, other than the block for the memory of calls |
| Liveness.Run | ir/memory.cpp:1458-1481 | after any run of frees and calls a block is alive iff it was and no step ended its life; a block that every step must spare is as it was; a block that a step frees, or that a call reaches and does not keep, is dead at the end, and local blocks die just by being freed |
| LocalAddr.DisjointExact | ir/memory.cpp:132-146 | for blocks that stay in range the test implies that they do not overlap, and is no stricter; different addresses suffice for equally aligned blocks no larger than their alignment; which of the two it is, is stated for empty blocks too |
| LocalAddr.AddressPlace | ir/memory.cpp:1509-1515 | local blocks are in the upper half of the addresses if there are others, at a multiple of their alignment |
| LocalAddr.LocalMemory.DisjointLocals | ir/memory.cpp:1486-1501 | the test against every live block |
| LocalAddr.LocalMemory.Alloc | ir/memory.cpp:1503-1541 | what is assumed at an allocation keeps the live blocks apart and in range, and assumes no more: a place with room that is apart from every live block is always allowed |
| LocalAddr.Run | ir/memory.cpp:1503-1660 | over any run of allocations, starts of lifetimes and frees: if what was assumed holds at the end and only granted blocks were started, the live blocks never overlapped or wrapped around; conversely, if every new block has room and the nonempty live blocks never overlap, everything assumed holds |
| LocalAddr.LocalMemory.StartLifetime | ir/memory.cpp:1630-1642 | a block that comes to life keeps the live blocks apart iff it stays in range, as every granted block does; starting a live block of some size contradicts what is assumed |
| LocalAddr.LocalMemory.Free | ir/memory.cpp:1644-1660 | freeing keeps the live blocks apart |
| LocalAddr.LastExcluded | ir/memory.cpp:1524-1528 | excluding the last multiple of the alignment is enough for small blocks |
| LocalAddr.RefusedBlockOverlaps | ir/memory.cpp:1630-1642 | what the interface relies on its callers for: a block whose allocation was refused could come to life on top of another one (concrete run) |
| Deref.BoundsExact | ir/pointer.cpp:363-370 | for access sizes below half the range of offsets the wrapping comparison holds iff the access is in bounds and ends at an offset, for blocks of any size |
| Deref.BoundsAccepts | ir/pointer.cpp:363-370 | for all sizes, what the wrapping comparison accepts in terms of numbers |
| Deref.BoundsRight | ir/pointer.cpp:363-370 | the comparison is right at every offset iff the sizes of access and block are right for each other |
| Deref.WrongAt | ir/pointer.cpp:363-370 | for all other sizes, an offset at which an access is wrongly accepted or refused |
| Deref.LargeBlockRefused | ir/pointer.cpp:363-370 | an access in bounds of a large block that is refused (concrete numbers) |
| Deref.AlignedOffset | ir/pointer.cpp:329-357 | low offset bits that are zero make the offset a multiple of the alignment, also if that is wider than an offset |
| Deref.AlignedExact | ir/pointer.cpp:320-357 | the test of alignment holds iff wherever a block of that alignment is put the address of the access is a multiple of what is asked for |
| Deref.IsDereferenceable | ir/pointer.cpp:359-386 | one case of the pointer, in a block of any size: bounds, life and permission, with the foldings; aligned iff the address is a multiple wherever the block is put |
| Deref.TestCases | ir/pointer.cpp:394-407 | the case that is the value decides, and it is kept unless it is impossible |
| Deref.IsPointerDereferenceable | ir/pointer.cpp:389-425 | wherever the comparison of bounds is right, allowed iff the address is aligned wherever the block is put and, for a nonempty access, alive, in bounds and permitted; then the trimmed pointer is the original one |
| LoopApprox.Encode | ir/instr.cpp:53-87 | what is assumed excludes just the loops that go on past the bound; otherwise the encoding is defined iff the loop without bound ends without undefined behaviour, with the value of its last iteration, and not poison iff no iteration was |
| LoopApprox.Loop | ir/instr.cpp:66-86 | the iterations from one on, with the shared prefix and early ends |
| LoopApprox.Strlen | ir/instr.cpp:4549-4568 | the length is the index of the first zero, undefined if none is reached |
| LoopApprox.Memcmp | ir/instr.cpp:4439-4511 | zero iff all bytes agree, else the sign of the first difference, or just not zero for bcmp; left out iff more than ten bytes are to be compared and ten are equal; for integer bytes positive iff the number at the first difference is greater, and for pointer bytes iff the address is |
| LoopApprox.CellsCompared | ir/instr.cpp:4484-4502 | what equal, at least and comparable mean for two integer bytes, two pointer bytes and one of each |
| Overflow.AddNoSignedOverflowMeans | smt/expr.cpp:779-783 | true iff the sum of the signed numbers fits |
| Overflow.SubNoSignedOverflowMeans | smt/expr.cpp:798-802 | true iff the difference of the signed numbers fits |
| Overflow.MulNoSignedOverflowMeans | smt/expr.cpp:809-812 | true iff the product of the signed numbers fits |
| Overflow.AddNoUnsignedOverflowMeans | smt/expr.cpp:785-796 | true iff the sum of the unsigned numbers fits, also by comparison with what is left above a constant |
| Overflow.SubNoUnsignedOverflowMeans | smt/expr.cpp:804-807 | true iff the subtrahend is no larger |
| Overflow.MulNoUnsignedOverflowMeans | smt/expr.cpp:814-817 | true iff the product of the unsigned numbers fits |
| Overflow.SaddSatMeans | smt/expr.cpp:731-741 | the nearest signed number to the sum |
| Overflow.SsubSatMeans | smt/expr.cpp:749-759 | the nearest signed number to the difference |
| Overflow.UaddSatMeans | smt/expr.cpp:743-747 | the nearest unsigned number to the sum |
| Overflow.UsubSatMeans | smt/expr.cpp:761-766 | the nearest unsigned number to the difference |

## Left out

- Dominators.DomTree.BuildDominators: the blocks come in an order in which every block after the entry has a predecessor before it; `TopSort.Sort` says for which graphs the sort gives such an order, and on the others the code is not modelled.
- Unroll.Function.UnrollLoop: control flow only; new phis and the repair of values across versions (ir/function.cpp:578-732) would need the whole instruction set.
- Loop nesting by union-find, and irreducible loops beyond the classification of jumps.
- SmartMeaning.MkEqMeans: does not have the comparison of constants in unaligned concatenations (smt/expr.cpp:1322-1336), which is not right in general; `ConcatEq` models that rule by itself and says exactly when it is.
- SmartMeaning.MkConcatMeans: does not have the rule at smt/expr.cpp:1607-1611, whose condition can never hold.
- ArithMeaning.MkUremMeans: says nothing where the divisor is zero, and neither do the other divisions and the equality rules with remainders, which are wrong there.
- ArithMeaning.MkLoadMeans: no arrays given by lambda expressions, nor their eta-reduction (smt/expr.cpp:1818-1841, 1889-1902).
- The operands of a commutative term are ordered by size in place of the order of their creation; n-ary concatenation (but for `ConcatEq`), conjunction and the conjunction sets of `AndExpr` are binary terms.
- Floating point, quantifiers, uninterpreted functions, population count and the other unary bit operations, funnel shifts, and saturating shifts.
- Executor.State.ExecInstr: assignments and guards only, no calls.
- Executor.State.Run: instructions are assignments of terms, guarded undefined behaviour and division results looked up in a table; memory is one bit-vector term. Calls, undef bookkeeping, return of varargs and the other state analyses (ir/state.cpp:113-180) are not part of it.
- UndefStrip.StripExact: for undef variables that are pairwise different and occur nowhere else in the expression. The fallback compares all of the value; padding in aggregates (ir/state.cpp:164-183) is left out.
- Disjoint.DisjointExpr.Split: that no value is an if-then-else is stated for terms whose branches are no concatenations or extractions; extracting from a concatenation that the depth limit leaves whole can give an if-then-else back.
- Choices.FunctionExpr.Apply: keys are compared as terms; quantified variables and printing are left out.
- Lanes.AggregateVals: one plane at a time; values and poison bits are packed the same way.
- MemBytes.BytesToPtr: the shortcut for null is taken from the layout when the first byte stays one unfolded term, else not; extractions that folding moved to different terms are left out.
- MemTypes.StoreThenLoad: offsets count modelled bytes, which are eight bits in the source (tools/transform.cpp:1066); pointers stored into constant globals are not redirected (ir/memory.cpp:437-444).
- MemBlocks.MemBlock.Store: one block and store-only runs; the alias analysis that picks blocks, memset and memcpy, and tags at joins and calls, which the source does not update, are not part of it.
- Byte and block refinement between source and target memory, and the axioms about initial memory.
- Liveness.Blocks.SetState: the contents of memory after a call are not modelled, only which blocks are alive.
- LocalAddr.LocalMemory.Alloc: live blocks are kept apart if their sizes are below the size of the local half, as tools/transform.cpp:1041-1045 assumes; blocks returned by calls, with an alignment that is not a constant (ir/memory.cpp:1293-1325), and blocks that are not local are left out. For alignment one the source also shifts the whole address out and asks for zero, which always holds.
- Deref.IsPointerDereferenceable: says nothing where the comparison of bounds is not right, which `Deref.BoundsRight` delimits; addresses are not observed, and an undef offset, which is always refused, is left out; the cases of the pointer are a partition, as `Disjoint.DisjointExpr.Split` proves.
- LoopApprox.Strlen: lengths and counts are not cut to the width of their types.
- LoopApprox.Memcmp: the checks that all bytes can be read are made before the loop and are not part of it.
- The fast-math e-graph, alias sets (whose comparison reads a wrong index at ir/memory.cpp:543-568), the solver interface, parsing, printing, the concrete interpreter and the LLVM front end.
