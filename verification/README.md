# ShivyCX: middle-end and back-end algorithms, verified

ShivyCX is a C compiler. This project models the algorithms in its middle and
back end that carry real correctness risk, and proves what they are for. All
theorems are over every program, graph, run, interleaving or token list; the
meaning of opaque operations, external calls and globals is a parameter
(`IL.Interp`), so the results hold for all of them.

The files fall into seven groups.

1. **Linear-scan allocation** (`il`, `liveness`, `linear_scan`, `scan_order`, `use_counts`,
   `coalesce`, `coalesced_run`, `coalesce_exact`, `reg_machine`, `allocation`). A small-step
   semantics of the three-address IL; the liveness fixpoint, intervals, scan and
   copy coalescing as loops; a second machine with registers and frame slots on
   which every call leaves arbitrary junk in every caller-saved register. The
   end-to-end theorem is `Allocation.AllocatedFunctionCorrect`.
2. **Graph colouring** (`graphs`, `node_graph`, `conservative`, `merge_forest`,
   `colouring_state`, `reduction`, `allocator_run`, `spot_assignment`,
   `best_spot`, `colouring`). The mutable graph class and the simplify / coalesce / freeze /
   optimistic-spill loop, whose every move is recorded and judged by the graph it is
   made in; the result is `Colouring.AllocateRegisters`.
3. **Induction-variable strength reduction** (`address_trace`,
   `strength_reduction`, `reduced_loop`, `reduced_code`, `reduced_run`,
   `reduction_pass`, `orderly`, `orderly_kept`), ending in
   `OrderlyKept.OrderlyPassKeepsTrace`, whose condition is on the input code alone.
4. **Inlining** (`labels`, `same_command`, `inline_body`, `inline_calls`,
   `inlined_calls`, `inlined_layout`, `inlined_run`), ending in `InlinedRun.InlinedRunIsSame`.
5. **The preemptive thread switcher** (`switcher`, `switch_routine`,
   `isolation`, `frame_pointer`): each emitted line is a machine step; the result is
   `ThreadIsolation.Isolation`.
6. **The preprocessor** (`macros`, `macro_steps`; `const_expr`, `const_laws`):
   object-like macro rescanning with hide sets, as a loop and as one-step rewriting,
   and the `#if` expression parser and evaluator.
7. **Two state-keeping analyses** (`memory_states`, `cfg`, `dataflow`;
   `simd_layout`, `simd_pack`): the memory-safety dataflow engine, and the
   packed flag register against one byte per flag.

Where the source updates things step by step the model does too: the graph, the
allocator run, the expression parser's cursor, the packed layout and the packed
machine are classes, and the passes are methods with loops, each proved against
the function or predicate the lemmas are about.

## What turned out false, and exactly when it holds

* **Writing a packed flag after a call in an ordinary function.** Reads use the
  register in hot functions only (shivyc/il_cmds/value.py:380), where it is reloaded
  after every call (shivyc/il_cmds/control.py:632-637, shivyc/asm_gen.py:4014-4017).
  Writes use it everywhere, and merge into its old value
  (shivyc/simd_pack.py:217-233).
  `SimdPack.StaleWriteLoses` is a run in which such a write loses another flag.
  `SimdPack.FreshIsExact`: whatever words the calls leave in the register, every
  prefix of a run keeps the mirror right and every read returns its flag, if and
  only if between a call and the next reload no flag is read or written, where a
  write to the only flag there is counts as a reload. The order of the events
  decides this; no value plays a part.
* **Unevaluated operands in `#if`.** The evaluator computes every operand
  (shivyc/preproc.py:801-864), so a logical or of 1 and 1 / 0 is an error, although
  an operand that is not evaluated cannot be at fault
  (sections 6.5.14 and 6.6 of C11). `ConstExprs.EagerMeetsLazy`: for every tree the
  evaluator gives the short-circuit value over exact integers if and only if no
  operator of the tree, evaluated or not, divides by zero or shifts by a negative
  amount.
* **Order of the freed states.** A comment orders them `a` < `mf` < `f`
  (shivyc/memory_safety.py:229). `MemoryStates.MergeMeetsComment`: the merge is the
  least upper bound in that order if and only if both statuses are freed or neither
  is; `MemoryStates.MergeBelowFreed` gives the two failing pairs. In the order the
  merge does have (`MemoryStates.MergeIsJoin`) maybe-freed is the top.
* **The frame pointer across a preemption.** The routine saves registers of the
  allocation pool only (shivyc/thread_contracts.py:285-288); rbp is not one of them.
  `FramePointers.FramePointerKept`: over any run rbp ends as it began, whatever
  values are computed for it, if and only if nothing in the run writes it; so a
  preempted thread gets its own back exactly if the other one does not use it.
  The registers of a thread's group survive whatever registers the other one writes.
* **Chained copy coalescing.** The window test (shivyc/asm_gen.py:951-975) looks
  at one copy at a time, but the renaming follows chains
  (shivyc/asm_gen.py:1057-1064). `CoalescedRun.ChainBreaksMeaning` is a program
  whose two accepted copies, renamed together, change its result from 7 to 3.
  The condition is that behind the command that defines a copied temporary, up to
  the copy, nothing touches the final target of its chain either; it holds in
  particular when no target is itself coalesced (`CopyCoalescing.NoChainsIsSafe`).
  `CoalescedRun.RenamedRunIsSame`: it is enough, for every program.
  `ExactCoalescing.SafeIsExact`: the renamed program stays with the original one, at
  every step, from every point where both can start in one state and for every
  interpretation, if and only if it holds; for programs whose commands show what
  they do (`ExactCoalescing.Telltale`). That is needed: two additions of the same
  operands, or a product with a read value that happens to be 1, can hide a value
  that was lost.

## Model

| member | source | states |
|---|---|---|
| IL.StepFollowsSucc | shivyc/asm_gen.py:1083-1103 | the successor lists are complete: a step of the semantics never goes to an index that is not listed, except by running off the end |
| IL.SuccIsReached | shivyc/asm_gen.py:1083-1103 | and they list no more: every listed successor is reached by a step from some environment, for some meaning of the operations, unless a branch tests a literal |
| Liveness.Successors | shivyc/asm_gen.py:1078-1103 | builds exactly the successor list of every command |
| Liveness.Sweep | shivyc/asm_gen.py:1110-1137 | one backward sweep only adds facts, adds none that no path justifies, and when it changes nothing the tables solve the backward equations |
| Liveness.ComputeLiveness | shivyc/asm_gen.py:1104-1138 | terminates; the tables solve the backward equations, and a value is live into an index if and only if some control path from there reaches a use before any definition |
| Liveness.SolutionHoldsPaths | shivyc/asm_gen.py:1109-1138 | any solution of the equations holds every value that some path makes live |
| Liveness.ExactIsLeast | shivyc/asm_gen.py:1109-1138 | the computed tables lie below every other solution of the equations |
| LinearScan.Intervals | shivyc/asm_gen.py:977-1005 | every index at which a value is live, used or defined lies in its interval, the end points are such indices, and `crosses` is exactly the set of values live on both sides of some call |
| LinearScan.Pick | shivyc/asm_gen.py:1066-1072 | the first register of the pool that is free at the index; -1 only if none is |
| LinearScan.Choose | shivyc/asm_gen.py:1023-1050 | callee-saved only for a value live across a call; for any other the caller-saved registers first; the first free one of the candidates in that order; exactly the callee-saved registers handed out are recorded |
| LinearScan.Scan | shivyc/asm_gen.py:1007-1055 | values with overlapping intervals never share a register, crossing values get callee-saved ones; each value in turn gets the first register among its candidates that no earlier value with an unfinished interval holds, and is spilled if and only if there is none |
| ScanOrder.CollectValues | shivyc/asm_gen.py:624-640 | every value the commands mention, each once, in the order of first mention |
| ScanOrder.SortByStart | shivyc/asm_gen.py:849-861 | the values by start of their intervals, those with equal starts in the order they were in |
| RegMachine.MarshalDelivers | shivyc/asm_gen.py:788-815 | with no live home below the argument registers, moving the arguments into place one after the other delivers every argument's value and disturbs nothing else |
| RegMachine.CallKeeps | shivyc/asm_gen.py:1001-1004 | after a call has destroyed every caller-saved register, every value live behind it and not defined by it is still in its home |
| RegMachine.StepSimulates | shivyc/asm_gen.py:806-901 | one step on registers and slots follows one step of the IL, for any junk left by calls |
| RegMachine.RunSimulates | shivyc/asm_gen.py:806-901 | the same for any number of steps: same commands, same branches, same memory, same result |
| CopyCoalescing.CoalesceSafe | shivyc/asm_gen.py:951-975 | true if and only if the copy's window is non-empty or trivial, holds no label, jump or return, and does not mention the target |
| CopyCoalescing.FindCopies | shivyc/asm_gen.py:708-732 | collects every acceptable copy of a single-use, single-definition temporary, and nothing else |
| CopyCoalescing.CanonIsLast | shivyc/asm_gen.py:1057-1064 | following the chain from any value ends at one that is not itself coalesced |
| CopyCoalescing.CopyDisappears | shivyc/asm_gen.py:911-914 | after renaming, every accepted copy is a copy of a value to itself |
| CopyCoalescing.NoChainsIsSafe | shivyc/asm_gen.py:951-975 | if no target is itself coalesced, the one-copy window test is enough |
| CopyCoalescing.WindowsApart | shivyc/asm_gen.py:951-975 | temporaries that end up in one home never hold a value at the same time |
| CoalescedRun.RenamedRunIsSame | shivyc/asm_gen.py:703-732 | renaming every accepted temporary to the end of its chain gives the same run, same commands, branches, memory and result, if no window touches the end of its chain behind the defining command |
| CoalescedRun.ChainBreaksMeaning | shivyc/asm_gen.py:1057-1064 | a chain of two accepted copies whose joint renaming returns 3 instead of 7 |
| ExactCoalescing.SafeIsExact | shivyc/asm_gen.py:951-975 | for programs whose commands show what they read and compute, the renaming is right at every step and for every interpretation if and only if no window touches the end of its chain behind the defining command |
| ExactCoalescing.ReadIsWrong | shivyc/asm_gen.py:1057-1064 | in such a program, a window in which the end of the chain is read, by a copy, an access, an opaque operation or a call, makes the renaming wrong |
| ExactCoalescing.WriteIsWrong | shivyc/asm_gen.py:1057-1064 | so does one in which the end of the chain is written |
| Allocation.Pools | shivyc/asm_gen.py:806-847 | caller-saved homes are exactly those above every argument register the function sets up or receives; cached global addresses take the first callee-saved registers out of the pool, and the rest is the pool |
| Allocation.LayOutSlots | shivyc/asm_gen.py:888-901 | exactly the values without a register get a slot; slots are aligned, above the save area, large enough for their values, disjoint, and stacked in the order of the values without gaps |
| Allocation.SavedRegisters | shivyc/asm_gen.py:871-878 | exactly the callee-saved registers in use are saved, each once |
| Allocation.Allocate | shivyc/asm_gen.py:806-923 | the homes it hands out satisfy everything the simulation needs: no two values present together share one, values live across a call are out of reach of it, slots are disjoint ranges large enough for their values, and no home is a register in which a parameter arrives; no home is a register that caches a global address; exactly the callee-saved registers in use, those caches among them, are saved; each value in scan order has the first home allowed to it that no unfinished interval holds, and a slot if and only if there is none; the frame is exactly as large as saves and slots need |
| Allocation.CacheStays | shivyc/asm_gen.py:837-847 | a register that caches a global address holds what it held on entry after any number of steps, whatever junk calls leave |
| Allocation.ParametersArrive | shivyc/asm_gen.py:687-701 | loading the parameters one after the other never overwrites one still to be loaded: each load moves out of the register its parameter arrived in what arrived there |
| Allocation.CalleeSavedRestored | shivyc/asm_gen.py:869-935 | entered through the prologue and left through the epilogue, a function returns every callee-saved register as it found it |
| Allocation.AllocatedFunctionCorrect | shivyc/asm_gen.py:703-935 | coalescing followed by allocation: after any number of steps, with any junk left by calls, the allocated function is at the same command with the same memory, or has returned the same result with every callee-saved register intact |
| Allocation.AllocateFunction | shivyc/asm_gen.py:703-935 | the pass establishes the premises of that theorem for every command list; chain safety follows when no target is coalesced |
| NodeGraphs.NodeGraph.AddConflict | shivyc/asm_gen.py:224-227 | adds exactly one symmetric conflict |
| NodeGraphs.NodeGraph.AddDummyNode | shivyc/asm_gen.py:213-222 | adds a precoloured node that conflicts with every other precoloured node and nothing else |
| NodeGraphs.NodeGraph.AddPref | shivyc/asm_gen.py:229-234 | adds exactly one symmetric preference |
| NodeGraphs.NodeGraph.Pop | shivyc/asm_gen.py:236-250 | removes a node from all four tables and keeps the graph well formed |
| NodeGraphs.NodeGraph.Merge | shivyc/asm_gen.py:279-318 | the kept node takes over conflicts and preferences, symmetry and self-freedom are restored |
| NodeGraphs.NodeGraph.RemovePref | shivyc/asm_gen.py:320-323 | removes one preference in both directions |
| Graphs.PoppedKeeps | shivyc/asm_gen.py:236-250 | removal keeps both relations symmetric, self-free and inside the node list |
| Graphs.MergedKeeps | shivyc/asm_gen.py:279-318 | so does merging |
| Graphs.PrefRemovedKeeps | shivyc/asm_gen.py:320-323 | so does dropping a preference |
| Graphs.MergedConf | shivyc/asm_gen.py:287-296 | after a merge two nodes conflict exactly if they did, or one is the kept node and the other conflicted with the removed one |
| Graphs.HistoryIsQuotient | shivyc/asm_gen.py:236-323 | after any sequence of removals, merges and dropped preferences, two remaining nodes conflict if and only if some members of their merged groups conflicted in the original graph |
| Conservative.EmptiableHasLow | shivyc/asm_gen.py:3577-3585 | a graph that low-degree deletions can empty always offers a real node of low degree |
| Conservative.PoppedEmptiable | shivyc/asm_gen.py:3577-3585 | removing any node keeps such a graph emptiable |
| Conservative.BriggsIsSafe | shivyc/asm_gen.py:3667-3670 | so does a merge allowed by the combined-degree rule |
| Conservative.GeorgeIsSafe | shivyc/asm_gen.py:3650-3665 | so does a merge into a precoloured spot allowed by its rule, given that precoloured spots conflict with one another |
| MergeForest.TreesMerge | shivyc/asm_gen.py:3616-3622 | recording a merge keeps the merge table an acyclic forest whose trees are the merged groups |
| MergeForest.GetMerged | shivyc/asm_gen.py:3745-3753 | terminates on that forest and returns the whole group |
| MergeForest.GetConflicts | shivyc/asm_gen.py:3728-3743 | returns exactly the original conflicts of any member of the group |
| ColouringState.PushKeeps | shivyc/asm_gen.py:3567-3571 | pushing a node keeps the allocator's invariant: groups, stack, forest, peacefulness inside groups |
| ColouringState.JoinKeeps | shivyc/asm_gen.py:3616-3622 | so does a conservative merge, also for nodes pushed earlier |
| ColouringState.UnpreferKeeps | shivyc/asm_gen.py:3709-3711 | so does freezing a preference |
| ColouringState.StuckMeansHard | shivyc/asm_gen.py:3224-3238 | when only high-degree nodes are left, the original graph could not be emptied either |
| Reductions.SimplifyOnce | shivyc/asm_gen.py:3577-3585 | removes the first listed node of low degree, or there is none |
| Reductions.CoalesceNode | shivyc/asm_gen.py:3628-3671 | merges the node with the first preference neighbour in list order that one of the two rules allows, in the source's direction, keeping the graph emptiable; does nothing only if no neighbour is allowed |
| Reductions.GeorgeHolds | shivyc/asm_gen.py:3655-3662 | true if and only if every conflict of the node has low degree or conflicts with the spot |
| Reductions.UnionSize | shivyc/asm_gen.py:3644-3648 | counts the union of two conflict sets |
| Reductions.FindLowest | shivyc/asm_gen.py:3693-3707 | the first edge in scan order among those of least (combined, smaller, larger) degree, or there is no preference left |
| Reductions.Freeze | shivyc/asm_gen.py:3673-3713 | drops one such edge in both directions; does nothing only if there is none |
| Reductions.UnpreferShrinks | shivyc/asm_gen.py:3709-3711 | freezing lowers the number of preferences, the second component of the termination measure |
| AllocatorRuns.MoveWasAllowed | shivyc/asm_gen.py:3205-3244 | every move of a run was allowed in the graph the moves before it left: a node simplified had fewer conflicts there than there are registers, one pushed optimistically at least as many |
| AllocatorRuns.RunIsQuotient | shivyc/asm_gen.py:3205-3244 | a run is a history of removals, merges and dropped preferences, so what it leaves is the quotient of the original graph by the groups it merged |
| AllocatorRuns.PushedOnce | shivyc/asm_gen.py:3555-3585 | no node is pushed twice, none pushed is left, and none is both simplified and pushed optimistically |
| SpotAssignment.LowFindsRegister | shivyc/asm_gen.py:3772-3784 | when a simplified node is popped, some register is not ruled out, whatever was merged after it was pushed |
| SpotAssignment.BlockedIsSeen | shivyc/asm_gen.py:3772-3778 | whatever rules a register out for a popped node is a node it conflicted with when it was pushed |
| SpotAssignment.DummyIsFree | shivyc/asm_gen.py:3765-3770 | nothing placed before a precoloured node has its register |
| SpotAssignment.FreeRegisters | shivyc/asm_gen.py:3763-3778 | exactly the registers that no conflicting node rules out, in reverse preference order |
| SpotAssignment.LastIsPreferred | shivyc/asm_gen.py:3763-3781 | popping the reversed list gives the preferred one among them |
| Colouring.Reduction.SimplifyAll | shivyc/asm_gen.py:3552-3575 | each round removes a real node; if nothing was done, no preference-free node has low degree |
| Colouring.Reduction.CoalesceAll | shivyc/asm_gen.py:3587-3626 | each pass merges real nodes away; at the end no allowed merge is left |
| Colouring.Reduction.Settle | shivyc/asm_gen.py:3208-3218 | terminates by (real nodes, preferences) and leaves only nodes of high degree |
| Colouring.Reduction.SpillCandidate | shivyc/asm_gen.py:3231-3237 | a node of highest conflict degree, the first of them in list order |
| Colouring.Reduction.Reduce | shivyc/asm_gen.py:3205-3244 | terminates on every graph with every node on the stack, precoloured ones on top |
| Colouring.ChooseSpot | shivyc/asm_gen.py:3761-3792 | a precoloured node gets its own register; another one the most preferred register no conflict rules out; a slot only if every register is ruled out |
| Colouring.PopKeeps | shivyc/asm_gen.py:3758-3792 | each pop keeps the partial assignment proper and complete for the groups popped so far |
| BestSpots.PopIsBest | shivyc/asm_gen.py:3758-3792 | placing a popped node by the rule keeps every spot above it on the stack best, its own included |
| Colouring.GenerateSpotmap | shivyc/asm_gen.py:3715-3794 | the finished assignment: every group placed, conflicts respected; each node popped gets the most preferred register that no conflicting group popped before it holds, and the next stack slot if and only if there is none |
| Colouring.AllocateRegisters | shivyc/asm_gen.py:3201-3251 | the run recorded takes the whole graph apart by allowed moves; every node of the original graph gets a spot, no two conflicting nodes share one, nodes the run merged share theirs; every group was simplified or pushed optimistically, not both, its members are on the stack exactly if it was spilled, and only one pushed optimistically can be; nothing is pushed optimistically when low-degree deletions can empty the graph; over the stack of the recorded moves, a pushed node's spot is the register of least index in the preference list that no conflicting group pushed after it holds, and a stack slot if and only if there is no such register |
| UseCounts.LastDefinitions | shivyc/peephole.py:366-375 | maps exactly the values defined in the range to their last definition |
| AddressTrace.TraceIsAffine | shivyc/peephole.py:281-339 | whenever the trace returns an induction variable and a factor, evaluating the address chain in two states that agree on loop-invariant values changes it by exactly the factor times the change of the variable |
| AddressTrace.TraceIsComplete | shivyc/peephole.py:281-339 | every chain of copies, sums and differences with at most one varying side, and products with literals, up to twelve commands deep, is traced, with its variable and factor |
| AddressTrace.ChainIsLinks | shivyc/peephole.py:298-300 | every visited command computes a value that itself traces |
| AddressTrace.ChainHasReader | shivyc/peephole.py:447-461 | every visited command but the one computing the address feeds another visited command |
| StrengthReduction.CheckLoop | shivyc/peephole.py:264-279 | finds the loop's start if and only if the label has one jump and the body is one straight line apart from early exits |
| StrengthReduction.BasicIvs | shivyc/peephole.py:378-400 | exactly the variables whose one definition in the body copies `v + literal`, with the literal |
| StrengthReduction.TryAt | shivyc/peephole.py:405-464 | accepts the operation if and only if every test of the pass passes |
| StrengthReduction.FindReduction | shivyc/peephole.py:355-467 | returns an accepted operation, and none only if no loop has one |
| StrengthReduction.Rewrite | shivyc/peephole.py:477-490 | builds the function with the chain in front of the loop and the two advancing commands before the backward jump |
| ReducedCode.TargetMoves | shivyc/peephole.py:477-490 | every label of the old function is found at the new position of its command, and none lies inside the body |
| ReducedLoop.LinkComputes | shivyc/peephole.py:281-339 | executing a command of the chain gives its temporary the traced value |
| ReducedLoop.UpdateKeeps | shivyc/peephole.py:425-440 | the update of the induction variable moves the chain's value one stride ahead |
| ReducedRun.EnterLoop | shivyc/peephole.py:476-484 | running the moved commands in front of the loop sets the pointer to the first iteration's address |
| ReducedRun.StepMatches | shivyc/peephole.py:342-494 | one step of the old function is matched by steps of the new one |
| ReducedRun.ReducedRunIsSame | shivyc/peephole.py:342-494 | same loads and stores in the same order, same memory and same result, and the new function cannot fall behind by more than a fixed factor |
| ReductionPass.PlanReady | shivyc/peephole.py:405-464 | the pass's tests together with `Regular` give everything the simulation needs |
| ReductionPass.ReductionKeepsTrace | shivyc/peephole.py:342-494 | whatever the pass accepts keeps the memory trace and the result, given `Regular` code |
| ReductionPass.StrengthReduce | shivyc/peephole.py:342-350 | at most twenty rewrites, each accepted where it is applied; fewer only if nothing is left to rewrite |
| OrderlyCode.OrderlyIsRegular | shivyc/peephole.py:378-464 | in code whose loops are orderly, a condition on the code alone, every reduction the pass accepts meets all that its proof takes for granted |
| OrderlyKept.RewriteKeepsOrder | shivyc/peephole.py:477-490 | a rewrite leaves orderly code orderly and other unused values unused |
| OrderlyKept.OrderlyPassKeepsTrace | shivyc/peephole.py:342-494 | the whole pass, all rounds, keeps the loads and stores in order, the memory and the result of any orderly function, and the rewritten function cannot fall behind by more than a fixed factor |
| SameCommands.SameCommand | shivyc/inline.py:142-150 | a command executed in two environments that agree on what it reads branches alike and changes both alike |
| InlineBodies.Capture | shivyc/inline.py:77-113 | captures a function if and only if every capture condition holds, with its parameters in order and its commands |
| InlineBodies.LeafRun | shivyc/inline.py:9-15 | a captured body leaves memory alone and computes the same whatever memory holds |
| InlineCalls.BindParams | shivyc/inline.py:155-159 | a fresh, distinct copy per parameter; a value used for two parameters is renamed to the later copy |
| InlineCalls.Mint | shivyc/inline.py:154-182 | every value and label of the body gets a fresh name, injectively, and the end label is none of them |
| InlineCalls.InlineAll | shivyc/inline.py:130-194 | a command is replaced if and only if it is a direct call with a captured body, one result and as many arguments as the body has parameters; it is replaced by a block with its own fresh names, and everything else is copied |
| InlinedCalls.FittingCallsGone | shivyc/inline.py:141-150 | the calls of the new caller are, in order, exactly those of the old one that had no captured body, no single result or another number of arguments; none comes out of a body |
| InlinedLayout.CallerTargets | shivyc/inline.py:173-182 | the caller's labels are found at the new positions of their commands |
| InlinedLayout.BodyTarget | shivyc/inline.py:173-191 | a body's jumps land on the clones of their targets, in their own copy |
| InlinedLayout.EndTarget | shivyc/inline.py:184-191 | returns land on their own copy's end label |
| InlinedRun.BodyReturn | shivyc/inline.py:185-188 | a return stores the result and leaves the copy |
| InlinedRun.CloneStep | shivyc/inline.py:116-127 | a cloned command does to the copies what the original does to the callee's values, and nothing to the caller's |
| InlinedRun.CallStep | shivyc/inline.py:155-159 | binding the parameters puts the inlined code where entering the callee puts the caller |
| InlinedRun.WorldStepMatches | shivyc/inline.py:130-194 | one step of the calling program is matched by steps of the inlined one |
| InlinedRun.InlinedRunIsSame | shivyc/inline.py:130-194 | for bodies that read no local before writing it: whatever point the calling program reaches, the inlined one reaches with the same caller values and memory, and finished runs have the same result |
| InlinedRun.SealedNeverStuck | shivyc/inline.py:184-191 | a body that ends in a return or jump and whose jumps have targets never leaves the caller stuck |
| Switcher.InPoolOrder | shivyc/thread_contracts.py:285-288 | the used registers, each once, in the order of the pool |
| Switcher.Emit | shivyc/thread_contracts.py:302-352 | the generator's loops emit exactly the routine that `ThreadIsolation` runs |
| SwitchRoutine.SavesRun | shivyc/thread_contracts.py:305-315 | the save loop puts every register of the group into its own slot of the running thread's block and changes no other memory |
| SwitchRoutine.MiddleRuns | shivyc/thread_contracts.py:316-336 | the interrupt frame is copied to the block, the end of interrupt is sent to the controller and nothing else, the vector is flipped and the two pointers swapped, whatever registers the acknowledgement clobbers |
| SwitchRoutine.RestoresRun | shivyc/thread_contracts.py:337-343 | the restore loop loads every register of the incoming group from its slot |
| SwitchRoutine.LeaveRuns | shivyc/thread_contracts.py:344-359 | the built frame returns to the incoming thread's instruction pointer, flags and stack pointer, and touches only the forty bytes below it |
| ThreadIsolation.TickSwitches | shivyc/thread_contracts.py:262-367 | one tick saves the running context exactly, brings in the other one exactly with the kernel's segments, names the other side's routine, and makes exactly one port write, 0x20 to port 0x20 |
| ThreadIsolation.BlockLayout | shivyc/thread_contracts.py:305-329 | the bytes of a preempted thread's block: stack pointer at 0, instruction pointer at 8, flags at 16, the group's registers from 24 by eights, its vector registers behind by sixteens |
| ThreadIsolation.EveryTickAcknowledged | shivyc/thread_contracts.py:323-326 | after any interleaving as many ends of interrupt have been sent as ticks came, nothing else was written to a port, and the next tick can be delivered |
| ThreadIsolation.Isolation | shivyc/thread_contracts.py:262-367 | under any interleaving of thread work and ticks, whatever registers the threads write, each thread's group context is what its own work made it, and the vector names the running side's routine |
| ThreadIsolation.ResumesAsPreempted | shivyc/thread_contracts.py:262-367 | a preempted thread resumes with exactly the group registers, instruction pointer, flags and stack pointer it had, whatever registers the other thread wrote |
| FramePointers.FramePointerIsShared | shivyc/thread_contracts.py:285-288 | under any interleaving rbp is what the last thread to write it left, ticks or not |
| FramePointers.FramePointerKept | shivyc/thread_contracts.py:285-288 | over any run rbp ends as it began, for all values that may be computed for it, if and only if nothing in the run writes it |
| Macros.Expand | shivyc/preproc.py:526-559 | the in-place rescanning loop terminates for every table, recursive ones included, and yields the nested expansion of each token |
| Macros.ExpandLine | shivyc/preproc.py:521-524 | a line of plain tokens becomes the tokens of its nested expansion, hide sets dropped |
| Macros.ReplacingIsLighter | shivyc/preproc.py:556-559 | splicing a body in makes the rest of the input strictly lighter: the termination argument |
| Macros.OutputSettled | shivyc/preproc.py:551-559 | every macro name left in the output is in its own token's hide set (section 6.10.3.4 of C11) |
| Macros.MeaningOrigin | shivyc/preproc.py:691-717 | each output token was written in the input or in the body of the innermost of a chain of nested macros, and its hide set is exactly that chain |
| Macros.ExpansionIsIdempotent | shivyc/preproc.py:526-559 | expanding the output again changes nothing |
| MacroSteps.StepKeepsMeaning | shivyc/preproc.py:551-559 | one rewriting step, given by indices, replaces a macro name by its body's tokens in written order, each hiding the name's hide set and the name; it does not change the nested expansion |
| MacroSteps.StepLightens | shivyc/preproc.py:551-559 | every such step, wherever it is made, makes the list lighter, so stepping ends |
| MacroSteps.ExpansionIsTheEnd | shivyc/preproc.py:526-559 | what the loop yields is reached from its input by such steps, no step applies to it, and stepping in any order until no step applies ends there |
| ConstExprs.DivisionTruncates | shivyc/preproc.py:854-863 | `/` truncates toward zero, `%` takes the dividend's sign and is smaller than the divisor, and a == b * (a / b) + a % b |
| ConstExprs.OperatorBits | shivyc/preproc.py:827-832 | the three bitwise operators work bit by bit in two's complement, on negative numbers too |
| ConstLaws.AdditionLaws | shivyc/preproc.py:849-852 | sums count up by one, and sums and differences undo one another |
| ConstLaws.MultiplicationLaws | shivyc/preproc.py:853-854 | a product is a repeated sum |
| ConstLaws.OrderLaws | shivyc/preproc.py:833-844 | `<` is the strict total order in which a + 1 follows a; the other comparisons are what it makes them, and all answer 0 or 1 |
| ConstLaws.ShiftLaws | shivyc/preproc.py:845-848 | a left shift doubles once per place; a right shift undoes it and rounds down |
| ConstLaws.PrefixLaws | shivyc/preproc.py:866-880 | unary minus gives the additive inverse, unary plus nothing new, and `~` turns every bit over |
| ConstExprs.ConstExpr.TernaryAt | shivyc/preproc.py:801-809 | the cursor-moving method agrees with the parsing function on value, error and position |
| ConstExprs.ConstExpr.BinaryAt | shivyc/preproc.py:811-819 | so does the loop over operators of one level |
| ConstExprs.ConstExpr.ParseAll | shivyc/preproc.py:781-787 | the whole parse: empty input and trailing tokens are errors |
| ConstExprs.ReadBack | shivyc/preproc.py:811-819 | a tree printed for a level, followed by anything that does not bind more tightly, is read back as that tree's value, left-associatively |
| ConstExprs.PrintThenParse | shivyc/preproc.py:767-891 | printing any tree with only the parentheses its levels require and parsing it consumes every token and gives the tree's value or its error |
| ConstLaws.GroupsByClass | shivyc/preproc.py:771-775 | the ten operator classes as explicit sets, loosest first: three operands with two operators between them group to the left if and only if the first operator's class is the same as or tighter than the second's |
| ConstLaws.NumbersGroup | shivyc/preproc.py:811-819 | for numbers a, b, c the parse of `a o1 b o2 c` is the value of that grouping |
| ConstLaws.PrefixIsTightest | shivyc/preproc.py:866-880 | a prefix operator takes the operand next to it, ahead of any operator between two operands |
| ConstLaws.ConditionalIsLoosest | shivyc/preproc.py:801-809 | the test of a conditional takes in every operator between two operands |
| ConstLaws.ConditionalNests | shivyc/preproc.py:801-809 | a conditional in the last place belongs to the outer one's alternative |
| ConstExprs.EagerMeetsLazy | shivyc/preproc.py:801-864 | the evaluator gives the short-circuit value over exact integers if and only if no operator of the tree, evaluated or not, is faulty |
| ConstExprs.UnevaluatedDivision | shivyc/preproc.py:822-826 | a logical or of 1 and 1 / 0 is 1 when short-circuited and an error here |
| ControlFlow.FindLeaders | shivyc/memory_safety.py:175-187 | exactly the first command, labels, and commands behind jumps and returns |
| ControlFlow.MakeBlocks | shivyc/memory_safety.py:189-199 | blocks cover the list without gaps, begin at leaders and contain no other |
| ControlFlow.MakeEdges | shivyc/memory_safety.py:201-223 | a block's edges are exactly the blocks of its last command's successors |
| ControlFlow.StepsFollowEdges | shivyc/memory_safety.py:159-223 | every control-flow step stays in its block or follows an edge to the start of one |
| MemoryStates.MergeIsJoin | shivyc/memory_safety.py:230-258 | the merge is commutative, associative and idempotent, and the least upper bound |
| MemoryStates.FactsMerge | shivyc/memory_safety.py:251-258 | what a merged state says is exactly what either state says |
| MemoryStates.MergeMeetsComment | shivyc/memory_safety.py:229-233 | the merge of two statuses is their least upper bound in the order the comment gives if and only if both are freed or neither is |
| MemoryStates.MergeBelowFreed | shivyc/memory_safety.py:229-233 | the two pairs on which it is not |
| Dataflow.Send | shivyc/memory_safety.py:404-409 | a successor's in-state rises to include the sent state and is queued exactly when it changed |
| Dataflow.Solve | shivyc/memory_safety.py:388-409 | the worklist loop terminates; each reached block's effect lies below every successor's in-state, the in-states lie below every other solution for monotone transfer, and out-states are the blocks' effects |
| Dataflow.Exits | shivyc/memory_safety.py:411-415 | the states of reached blocks without successors, or the entry's if there is none |
| Dataflow.Analyze | shivyc/memory_safety.py:388-415 | the whole analysis of a command list: its control-flow graph, the least solution, the blocks' effects and the exit states; the initial state alone for an empty list |
| Dataflow.PathsCovered | shivyc/memory_safety.py:388-415 | the state computed along any control path lies below what the solution gives at its end |
| SimdLayout.WidthIsDeclared | shivyc/simd_pack.py:48-49 | a name ending in an underscore, digits and `bit` declares that width |
| SimdLayout.WidthDeclares | shivyc/simd_pack.py:48-49 | and only such a name does |
| SimdLayout.DecimalLaws | shivyc/simd_pack.py:48-49 | the digits' value: a digit alone is its place among the ten, and one more digit behind makes ten times the value and that digit |
| SimdLayout.Layout.Consider | shivyc/simd_pack.py:91-115 | a qualifying flag gets the next bits, slots stay disjoint inside 64 bits, existing ones never move, and every refusal leaves the layout alone |
| SimdPack.MergeIsInsert | shivyc/simd_pack.py:217-231 | the emitted mask, shift and merge replaces exactly the slot's bits |
| SimdPack.Machine.Startup | shivyc/simd_pack.py:153-178 | register and mirror agree with every flag's byte masked to its width |
| SimdPack.Machine.Read | shivyc/simd_pack.py:187-198 | the slot's bits, zero-extended |
| SimdPack.Machine.Write | shivyc/simd_pack.py:200-233 | byte, register and mirror all take the masked value |
| SimdPack.Machine.Perform | shivyc/simd_pack.py:180-233 | a write, read, reload or call does to the machine what the event does in the runs reasoned about |
| SimdPack.RunRefines | shivyc/simd_pack.py:153-233 | after start-up and any run in which calls are followed by a reload before the next use, every slot of the mirror holds its flag, and the register equals the mirror unless a call has just spoilt it |
| SimdPack.ReadIsFlag | shivyc/simd_pack.py:187-198 | every read then gives the flag's byte masked to its width |
| SimdPack.WriteIsLocal | shivyc/simd_pack.py:200-233 | writing one flag leaves every other slot and byte unchanged |
| SimdPack.FreshIsExact | shivyc/simd_pack.py:187-233 | whatever words calls leave in the register, mirror and reads are right throughout a run if and only if after a call no flag is read, and none of several written, before a reload or a write to the only flag |
| SimdPack.StaleWriteLoses | shivyc/il_cmds/control.py:632-637 | a call and a write without a reload in between lose another flag |

## Left out

- ExactCoalescing.SafeIsExact: the direction from right to safe is for programs whose commands show what they do; side conditions on types (arrays, structures, sizes) do not arise because IL values here are one word; address-taken and global values are `Pinned` operands and never coalesced.
- Allocation.AllocatedFunctionCorrect: calls with more than eight arguments and parameters passed on the stack, aggregates and other values forced to memory, and fused compare-and-branch are not modelled. The registers caching global addresses are set aside but their loads are not executed.
- Allocation.AllocateFunction: chain safety follows only when no target is coalesced, which the pass does not check; fusion and values forced to memory are left out as above.
- ReductionPass.PlanReady: for `Regular` code, which the pass does not test; `OrderlyCode.OrderlyIsRegular` derives it from a condition on the code.
- ReductionPass.ReductionKeepsTrace: integers are unbounded, as the pass itself assumes indices do not overflow; `Regular` spells out what else it takes for granted.
- StrengthReduction.BasicIvs: a global or address-taken variable is never an induction variable here, nor read by a chain that is moved; the pass accepts both, on the understanding that no access in the loop changes such a variable.
- OrderlyKept.OrderlyPassKeepsTrace: for orderly code only: in each loop, what feeds an address through single uses is computed once per iteration before its use and from no memory-homed value, and an induction variable's addition comes ahead of its copy. Code that is not orderly is not claimed to be treated wrongly.
- InlineCalls.InlineAll: conversions between the types of argument and parameter, and re-registering of literals, are not modelled; literals stay literals.
- InlinedRun.InlinedRunIsSame: stated for bodies that read no local before writing it, because an inlined local keeps its value from one call to the next; entering through stack-passed parameters is refused by the capture.
- ThreadIsolation.Isolation: about each thread's own group; a register outside it is not isolated, and of those outside the allocation pool only rbp is modelled (`FramePointers.FramePointerKept`). A thread is assumed to leave the switcher's memory alone and room for an interrupt frame on its stack. Memory is one cell per access and the threads' own memory is not compared. The timer routine runs with interrupts off, so it is one step of the interleaving.
- ConstExprs.EagerMeetsLazy: integers are exact, as in the source; the wrapping of `intmax_t` and `uintmax_t` and unsigned suffixes, which C requires, are in neither evaluator.
- ConstExprs.PrintThenParse: number tokens carry their value; `parse_c_int` and character constants are not modelled. A negative shift amount is an error outcome (the source lets a Python exception escape).
- Dataflow.Solve: the per-command transfer function is a parameter, with a finite set of facts it never leaves; diagnostics, summaries and the order of functions are not modelled, and nothing is claimed about finding every bug.
- Switcher.Emit: assembly spelling is replaced by instructions; the left/right budgets computed by `analyze` enter as the two register lists.
- Function-like macros, stringizing, `##`, includes and conditional bookkeeping: hide-set intersection makes their termination a separate subject.
- Construction of the x86-64 conflict graph, instruction selection and assembly text for the four targets: large case tables over other files.
- The riscv64 and m68k copies of the linear-scan driver: they share the modelled core; only pools and frame layout differ.
- Spill slots of merged x86-64 values of different sizes, and pools restricted by a thread budget: spot assignment assumes every precoloured spot is allocatable.
- Loop-invariant hoisting, arithmetic simplification, compare-jump fusion, the cooperative switcher, `_split_budget`: smaller than, or special cases of, what is modelled, or in need of assumptions that would dominate the statement.
- The driver, caching, toolchain calls and report formatting: input and output only.
