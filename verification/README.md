# Algorithms of angr, modelled and proved in Dafny

angr is a binary-analysis framework. This project models the self-contained algorithms at its core and
proves what they are for. Symbolic values, the solver and the graph library are parameters or concrete
integers and byte maps. Within what is modelled, members follow the branches of the Python code; the rest is
listed at the end.

* `Slicer`, `SliceSoundness`, `SliceMinimality`: the backward slicer over one VEX block, as mutable objects and
  as a function; non-interference: the kept statements alone compute the targets; and which statements are kept.
* `Blade`: the slicer driven backward over a control-flow graph.
* `VexSemantics`, `VexToAil`, `VexBlockToAil`: what scalar integer VEX means (after angr's own operation
  handlers), its translation to AIL, and exactly which part of every run the translation preserves.
* `Pcode`, `PcodeToAil`: p-code, the converter that renames mutable uniques to write-once temps, and that it
  preserves every run of straight-line code.
* `Ail`, `AilReplace`, `BlockWalker`: AIL with its meaning, substitution of expressions, and the rewriting
  block walker.
* `Regions`, `KeyedRegionRefinement`: the sorted interval map, against a map from single offsets.
* `HistoryGraph`, `SimManager`: the history graph, the stash machine, and their joint recursive merge.
* `SimTypes`, `TypeMemory`: struct layout, and storing and extracting typed values.
* `SystemVClassify`, `SystemVAlloc`, `Callsite`: argument classification and allocation by section 3.2.3 of
  the x86-64 psABI, and setting up a call.
* `TableSpec`: dumping argv-like tables. `CalleeCleanup`: the FIFO search for a return instruction.
* `BitVec`, `MachineState`, `Vex`, `Sessions`, `Wrappers`: fixed-width arithmetic, byte memories, VEX syntax,
  argument sessions, options.

Objects whose methods update their fields are classes; each such method is proved against a function of the
old state, and the properties are lemmas about that function. Conversions and rewritings that build new trees
are functions.

Some properties that one would expect do not hold of the code. Each has a lemma that shows where it fails. The
condition under which it does hold is exact for what the model covers; for the slicer it is exact for each flat
statement, and sufficient for whole blocks:

* `__store` of `KeyedRegion`, for an object it does not hold yet, is an update of the byte map if and only if
  the store has one of four shapes.
* VEX to AIL drops what follows the last kept exit of a block, and the exits it skips.
* p-code loads and stores in the register space use the address where the contents are meant, a sign
  extension is converted as a zero extension, and a partial read of a unique names a temp nothing assigns.
* `replace` on AIL needs equal widths, not only equal values. The walker does not come back from an expression
  that leads to a cycle of rewrites.
* `_classify` raises for a leaf that straddles eightbytes, which arrays of structs can have, because a
  struct's size is not padded at its end.
* A stepped state can vanish without a trace, exactly when all it adds goes to dropped stashes.
* Merging two states without a hierarchy always fails. `_find_root_unreachable` overlooks the oldest history.
* The slicer is unsound for partial register writes, guarded loads, stores through unknown addresses and a
  moved stack pointer.

Where the code and its documentation disagree, the code is followed: `most_mergeable` is documented to return
lists but returns an empty set when it finds nothing, which the model, like its caller, reads as empty.

## Model

| member | source | states |
|---|---|---|
| `Slicer.SimSlicer.AliasAnalysis` | angr/slicer.py:81-112 | the forward loop computes the alias map of the whole block |
| `Slicer.SimSlicer.Slice` | angr/slicer.py:197-220 | the backward loop, stopping early when nothing is live, yields the kept indices, statements and residue of the recursive pass |
| `Slicer.SimSlicer.BackwardHandlerStmt` | angr/slicer.py:226-300 | updating the live sets in place is one step of the liveness function, with the keep decision; which statements that keeps is said in `SliceMinimality` |
| `Slicer.SimSlicer.BackwardHandlerExpr` | angr/slicer.py:302-352 | updating the live sets in place is the liveness function on expressions |
| `Slicer.MakeSlicer` | angr/slicer.py:32-79 | constructing fails exactly without targets; otherwise the object is sliced, with base registers as targets |
| `SliceMinimality.KeptExactly` | angr/slicer.py:197-352 | for every block and targets: a statement is kept if and only if it writes a temp, base register or aliased cell that is a target not written after it, or that a later kept statement needs with no write in between; a mark, if and only if marks are wanted and something was live at every later statement; what is left is exactly what is live at the start |
| `SliceMinimality.SlicerKeeps` | angr/slicer.py:32-79 | the same for the attributes of a constructed slicer, whose indices ascend |
| `SliceMinimality.ExprNeeds` | angr/slicer.py:302-352 | handling an expression adds exactly the operand temps, registers and aliased cells it reads to what is live |
| `SliceMinimality.KeptIfWritten` | angr/slicer.py:226-300 | a statement other than a mark is kept if and only if it writes something live |
| `SliceMinimality.AliasedExactly` | angr/slicer.py:81-195 | a temp has an alias if and only if some statement writes it a sum of constants, the stack or base pointer, and temps that were written such sums before |
| `SliceSoundness.ForwardExprIsValue` | angr/slicer.py:140-195 | what the forward pass computes for an expression is its value, when sp and bp are what it mocks them to be |
| `SliceSoundness.AliasesHoldAt` | angr/slicer.py:81-134 | every alias of a temp that a statement reads equals the temp's concrete value there, when temps are written once and sp and bp are kept |
| `SliceSoundness.EvalAgrees` | angr/slicer.py:302-352 | machines that agree on what the expression handler marks live evaluate the expression alike |
| `SliceSoundness.StepAgrees` | angr/slicer.py:226-300 | one backward step: agreement before implies agreement after, whether the statement is kept or skipped |
| `SliceSoundness.StepExact` | angr/slicer.py:226-352 | for flat statements, a step keeps agreement for every meaning of the operations and all machines if and only if the statement is tracked |
| `SliceSoundness.SliceSound` | angr/slicer.py:81-352 | non-interference: from starts that agree on the residue, block and kept statements leave all targets equal, with or without instruction marks, for every block in which what is live is tracked |
| `SliceSoundness.SlicerSound` | angr/slicer.py:32-79 | the same for the attributes of a constructed slicer: its kept statements, final registers and final stack offsets |
| `SliceSoundness.PathSound` | angr/blade.py:382-431 | along a path of blocks, each sliced for what the next one leaves, the kept statements leave the targets of the last block equal |
| `SliceSoundness.PartialPutUnsound` | angr/slicer.py:251-265 | a kept write to part of a register hides an earlier write of all of it: two runs disagree on a target |
| `SliceSoundness.GuardedLoadUnsound` | angr/slicer.py:286-300 | a kept guarded load marks its address live, but not the cell it reads: two runs disagree on a target |
| `SliceSoundness.UnknownStoreUnsound` | angr/slicer.py:267-284 | a store through an address without alias is dropped although it hits a live cell: two runs disagree |
| `SliceSoundness.MovedStackPointerUnsound` | angr/slicer.py:114-134 | the forward pass does not see writes to sp, so a store is credited to the wrong cell: two runs disagree |
| `Blade.Blade.AddToSlice` | angr/blade.py:228-237 | adds one edge; every node keeps leading to the destination within the level bound, over followed edges |
| `Blade.GraphGrows` | angr/blade.py:228-237 | an edge to a node of the slice keeps every node leading to the destination |
| `Blade.Blade.RunSlicer` | angr/blade.py:291-307 | a slicer is never built without targets; its statements become a chain that ends at the previous node |
| `Blade.Blade.AddControl` | angr/blade.py:354-380 | the temps that decide where the block goes, and the chain of its conditional exits, when control dependence is asked for |
| `Blade.Blade.AddExits` | angr/blade.py:366-380 | the loop adds every conditional exit, each linked to the one before, and collects the temps of their guards |
| `Blade.Blade.SliceBlock` | angr/blade.py:354-395 | default exit, conditional exits and kept statements, or the block's first statement when none is kept, each linked to the one before |
| `Blade.Blade.EnterBlock` | angr/blade.py:354-413 | the edges of the block are added, and the first time it is recorded as traced with what it leaves |
| `Blade.Blade.BackwardSliceRecursive` | angr/blade.py:341-431 | terminates by level, is entered only with something to look for, adds the edges of the block even when it was traced before; edges are added for entered blocks only, and every block traced on the way ends complete: what it left when first traced was looked for in each predecessor that is followed |
| `Blade.Blade.FollowPredecessors` | angr/blade.py:401-431 | of the first max_predecessors edges, each that is no skipped call or return and not from hooked code is followed while something is live and the level lasts: its block, if it lifts, is traced and its edges are in the slice; others are not followed |
| `Blade.Blade.BackwardSlice` | angr/blade.py:239-339 | every node of the slice leads to the destination and lies less than max_level followed edges behind it; besides the destination's own statements the slice has edges of entered blocks only, and the destination and every traced block are complete; nothing is sliced without targets |
| `VexSemantics.EvalInRange` | angr/engines/vex/claripy/irop.py:486-605 | a typed expression has a value of its width, unless it divides by zero |
| `VexToAil.AddIsSub` | angr/ailment/converter_vex.py:208-212 | adding a constant with its sign bit set is subtracting its two's complement |
| `VexToAil.SubtractionPreserved` | angr/ailment/converter_vex.py:208-212 | the subtraction that replaces an addition has its value |
| `VexToAil.HighHalfPreserved` | angr/ailment/converter_vex.py:139-175 | shift and truncate is the high half |
| `VexToAil.ConversionPreserved` | angr/ailment/converter_vex.py:177-186 | extension and truncation keep their value |
| `VexToAil.NotPreserved` | angr/ailment/converter_vex.py:188-200 | negation of one bit and of many keep their value under their different names |
| `VexToAil.UnaryPreserved` | angr/ailment/converter_vex.py:124-200 | conversions, high halves and negations keep their value |
| `VexToAil.DivModPreserved` | angr/ailment/converter_vex.py:291-352 | remainder and quotient of the extended divisor, truncated and concatenated, are the DivMod, and fault with it |
| `VexToAil.MullPreserved` | angr/engines/vex/claripy/irop.py:675-679 | the widening product that AIL takes of its operands is the product of the extended operands that VEX takes |
| `VexToAil.RenamedPreserved` | angr/ailment/converter_vex.py:214-228 | every operation that is only renamed keeps its value and its fault |
| `VexToAil.BinaryPreserved` | angr/ailment/converter_vex.py:203-365 | every binary operation keeps its value, rewritten or renamed |
| `VexToAil.BitsPreserved` | angr/ailment/converter_vex.py:104-437 | the converted expression has the original's width |
| `VexToAil.ExprPreserved` | angr/ailment/converter_vex.py:104-437 | the converted expression has the original's value in every state, and divides by zero when it does |
| `VexBlockToAil.StmtPreserved` | angr/ailment/converter_vex.py:488-549 | each converted statement does what the original does, and a statement without conversion does nothing; exits that are skipped apart |
| `VexBlockToAil.ConvertBlock` | angr/ailment/converter_vex.py:668-798 | the loop with its patched last jump computes the conversion, or fails for an unsupported jumpkind |
| `VexBlockToAil.ConvertedWhere` | angr/ailment/converter_vex.py:668-798 | exactly blocks that end in a jump, call or return are converted, to a block at the address of the first mark, or at their own without one |
| `VexBlockToAil.PatchedAtIndex` | angr/ailment/converter_vex.py:768-771 | filling in the false target changes the last conditional jump and no other statement |
| `VexBlockToAil.ConversionExact` | angr/ailment/converter_vex.py:668-798 | for every typed block and state the AIL block does exactly what the block does without its skipped exits and without what follows its last kept exit when it ends in a jump |
| `VexBlockToAil.RunPreserved` | angr/ailment/converter_vex.py:668-798 | for every flat block and state: a run is preserved if and only if it takes no skipped exit and, when the block ends in a jump, what it does after the last kept exit changes nothing |
| `VexBlockToAil.SkippedExitTaken` | angr/ailment/converter_vex.py:529-539 | a run that takes a skipped exit and is not preserved |
| `VexBlockToAil.BlockPreserved` | angr/ailment/converter_vex.py:668-798 | when nothing but marks, hints and skipped exits with atomic guards follows the last kept exit, a run is preserved if and only if it takes no skipped exit |
| `VexBlockToAil.TrailingStatementLost` | angr/ailment/converter_vex.py:767-772 | a case of the above: an assignment after the only exit makes the runs differ, whenever it changes the state |
| `VexBlockToAil.SampleLost` | angr/ailment/converter_vex.py:767-772 | a block whose conversion loses a statement |
| `PcodeToAil.PCodeIRSBConverter.RemapTemp` | angr/ailment/converter_pcode.py:251-266 | a write takes the next index and moves the counter; a read names the current one and changes nothing |
| `PcodeToAil.PCodeIRSBConverter.ReadVarnode` | angr/ailment/converter_pcode.py:268-328 | the expression of each space; an unwritten unique is searched for in the seven bytes below, nearest first, and gives a shifted temp or nothing; no state changes |
| `PcodeToAil.PCodeIRSBConverter.StoreValueTo` | angr/ailment/converter_pcode.py:330-357 | appends the assignment or store, and renames a unique |
| `PcodeToAil.PCodeIRSBConverter.ConvertCurrentOp` | angr/ailment/converter_pcode.py:166-182 | the handlers in place are the conversion function on one op |
| `PcodeToAil.PCodeIRSBConverter.Convert` | angr/ailment/converter_pcode.py:141-164 | the loop is the conversion of the whole list |
| `PcodeToAil.UniquesAreWriteOnce` | angr/ailment/converter_pcode.py:251-266 | when every unique is written before it is read, temps are assigned in increasing order, so at most once, and only read after that |
| `PcodeToAil.TempsAssignedOnce` | angr/ailment/converter_pcode.py:251-266 | every conversion assigns temps in increasing order, so at most once |
| `PcodeToAil.PartialRead` | angr/ailment/converter_pcode.py:293-316 | a partial read is of the nearest tracked unique, at most seven bytes below, and names a temp by that offset, which nothing has assigned unless it is below the counter |
| `PcodeToAil.PartialReadValue` | angr/ailment/converter_pcode.py:293-316 | a partial read of a temp that is not set is right if and only if the bytes it reads are zero |
| `PcodeToAil.PartialReadExactly` | angr/ailment/converter_pcode.py:293-316 | the same after any converted block that started without temps, for a unique offset not below the counter |
| `PcodeToAil.PartialReadWrong` | angr/ailment/converter_pcode.py:293-316 | a block that converts and whose second byte of a unique is read as zero instead of one |
| `PcodeToAil.ValuePreserved` | angr/ailment/converter_pcode.py:268-328 | a read of a written unique names the latest write: the expression has the varnode's value |
| `PcodeToAil.SetPreserved` | angr/ailment/converter_pcode.py:330-357 | the added statement keeps registers, memory and tracked uniques related |
| `PcodeToAil.OpPreserved` | angr/ailment/converter_pcode.py:166-230 | the statement of an op faults when the op does, and otherwise keeps registers, memory and tracked uniques related |
| `PcodeToAil.ConversionSucceeds` | angr/ailment/converter_pcode.py:291-316 | a block converts if and only if every unique it reads was written, or one at most seven bytes below it was |
| `PcodeToAil.ConversionPreserved` | angr/ailment/converter_pcode.py:141-475 | from related states, ops that write uniques before they read them and their statements end related, or both fault |
| `PcodeToAil.BlockConverted` | angr/ailment/converter_pcode.py:141-475 | for blocks without partial overlap: when the conversion succeeds; and for those that write before they read, write-once temps and equal registers and memory |
| `PcodeToAil.SignExtension` | angr/ailment/converter_pcode.py:395-408 | a sign extension, converted as unsigned, is right if and only if nothing is extended or the sign bit is clear |
| `PcodeToAil.SignLost` | angr/ailment/converter_pcode.py:395-408 | a sign extension that is converted wrongly |
| `PcodeToAil.RegisterLoad` | angr/ailment/converter_pcode.py:424-447 | after a register-space load, all registers, memory and tracked uniques are right if and only if the register at the address holds the address, as far as it fits the output |
| `PcodeToAil.RegisterLoadWrong` | angr/ailment/converter_pcode.py:432-435 | a register-space load that is converted wrongly |
| `PcodeToAil.RegisterStore` | angr/ailment/converter_pcode.py:449-475 | after a register-space store, all registers, memory and tracked uniques are right if and only if the data and the register at the address both held the address; or, for registers that share a byte, each of the two stores would find its value after the other |
| `PcodeToAil.ConstantStore` | angr/ailment/converter_pcode.py:174-178 | a register-space store of a constant is dropped, which is right if and only if the register at the address holds the constant |
| `PcodeToAil.RegisterStoreWrong` | angr/ailment/converter_pcode.py:456-460 | a register-space store that is converted wrongly |
| `AilReplace.LikesMeansEqualValue` | angr/ailment/expression.py:131-1245 | alike expressions of any shape have equal value and width in every state |
| `AilReplace.ReplaceChanges` | angr/ailment/expression.py:541-1245 | replace reports a change exactly when a strict subexpression equals the old one, and otherwise returns the expression itself |
| `AilReplace.ReplaceIsSubst` | angr/ailment/expression.py:541-1245 | the result is the expression with every outermost occurrence strictly inside it replaced at once |
| `AilReplace.ReplacePreserves` | angr/ailment/expression.py:541-1245 | replacing by an expression of equal value and width keeps value and width of every expression |
| `AilReplace.WidthMatters` | angr/ailment/expression.py:973-1006 | for any old and new of equal value but different width there is an expression whose value changes |
| `BlockWalker.HandleExpr` | angr/ailment/block_walker.py:305-318 | for an expression that leads to no cycle, re-handling rebuilt nodes terminates; a result is returned exactly when a temp is left to rewrite, and none is left in it |
| `BlockWalker.Handler` | angr/ailment/block_walker.py:625-743 | each rebuild handler returns a node, exactly when there were temps to rewrite, and leaves none; the temp handler returns the replacement |
| `BlockWalker.BoundIsEnough` | angr/ailment/block_walker.py:305-318 | handling with room for n nested rewrites comes back exactly when no more are nested, and then with the same result |
| `BlockWalker.EndsWithoutCycle` | angr/ailment/block_walker.py:305-318 | handling comes back, for some bound on nested rewrites, if and only if the expression leads to no cycle; as many as there are temps to rewrite are enough |
| `BlockWalker.TwoTempCycle` | angr/ailment/block_walker.py:305-318 | two temps rewritten to each other: handling one never comes back, handling another does |
| `BlockWalker.HandleIsClosure` | angr/ailment/block_walker.py:305-318 | handling to a fixpoint is substitution until no rewritten temp is left |
| `BlockWalker.HandleStmtIsClosure` | angr/ailment/block_walker.py:324-583 | a statement is rebuilt if and only if a temp in it is to be rewritten, with the closure of every expression, and none is left to rewrite then |
| `BlockWalker.WalkedIsClosure` | angr/ailment/block_walker.py:265-293 | every statement of a walked block is the original with its expressions closed, none has a temp left to rewrite, and the block counts as unchanged if and only if none had |
| `BlockWalker.HandleIsSubst` | angr/ailment/block_walker.py:305-318 | when replacements mention no rewritten temp, handling is one simultaneous substitution |
| `BlockWalker.HandlePreserves` | angr/ailment/block_walker.py:625-743 | rewriting temps, also through each other, to expressions of equal value and width keeps every expression's value |
| `BlockWalker.WalkedIsNormal` | angr/ailment/block_walker.py:265-293 | a second pass over a walked block ends and changes no statement; an unchanged block is returned as it is |
| `BlockWalker.StmtPreserved` | angr/ailment/block_walker.py:324-583 | each rewritten statement does what the original does |
| `BlockWalker.WalkPreserves` | angr/ailment/block_walker.py:265-583 | a block runs as the original when temps are rewritten to equal expressions, and neither they nor what those read is changed by the block |
| `BlockWalker.AILBlockWalker.Walk` | angr/ailment/block_walker.py:265-293 | in place, the block gets the walked statements; otherwise it is untouched and a new block is returned exactly when something changed |
| `BlockWalker.AILBlockWalker.UpdateStep` | angr/ailment/block_walker.py:280-283 | one statement in place is one step of the walk |
| `BlockWalker.AILBlockWalker.CopyStep` | angr/ailment/block_walker.py:284-290 | one statement into a copy, which is made at the first change |
| `Regions.KeyedRegion.GetContainer` | angr/keyed_region.py:136-145 | the item that includes the offset, if there is one |
| `Regions.KeyedRegion.GetObjectsByOffset` | angr/keyed_region.py:342-353 | the objects stored at the offset |
| `Regions.KeyedRegion.StoreObject` | angr/keyed_region.py:381-475 | the fast paths and the scan, in place, are the store function |
| `Regions.KeyedRegion.ScanLoop` | angr/keyed_region.py:435-475 | the loop over overlapping items collects the updates of the recursive scan |
| `Regions.KeyedRegion.ScanStep` | angr/keyed_region.py:439-473 | one item: split, gap, tail or whole, as the recursive scan has it |
| `Regions.ContainerIsCover` | angr/keyed_region.py:136-145 | looking up the greatest key not above an offset finds the covering item if and only if one covers it |
| `KeyedRegionRefinement.StoreRefines` | angr/keyed_region.py:396-475 | for the good shapes the store is the byte map's update, and items stay disjoint |
| `KeyedRegionRefinement.StoreLeaves` | angr/keyed_region.py:396-475 | after a good store, an offset in range holds only the new object if strong, one more object if weak; merging to top adds it where all objects are the same and leaves only top elsewhere; other offsets are as before |
| `KeyedRegionRefinement.StoreRefinesExactly` | angr/keyed_region.py:396-475 | for a fresh object, a strong or weak store refines the byte map if and only if its shape is good |
| `KeyedRegionRefinement.TwoItemsWrong` | angr/keyed_region.py:430-475 | a store over two items from the start of the first that is not an update of the byte map |
| `KeyedRegionRefinement.WeakInsideOverApproximates` | angr/keyed_region.py:442-451 | a weak store strictly inside an item adds the object up to the item's end, and so over-approximates |
| `KeyedRegionRefinement.RunRefines` | angr/keyed_region.py:262-312 | over any run of good stores, items stay disjoint and every lookup equals the byte map |
| `HistoryGraph.ContractKeepsAncestry` | angr/state_hierarchy.py:91-108 | removing a node keeps ancestor-of exactly, among the nodes left |
| `HistoryGraph.ContractKeepsAcyclic` | angr/state_hierarchy.py:91-108 | removing a node keeps the graph acyclic |
| `HistoryGraph.ContractAllKeepsAncestry` | angr/state_hierarchy.py:130-133 | the same for any sequence of removed nodes |
| `HistoryGraph.ExtendKeepsAcyclic` | angr/state_hierarchy.py:114-128 | adding a new history under a parent keeps the graph acyclic |
| `HistoryGraph.ContractFiltersLineage` | angr/state_hierarchy.py:141-155 | in a forest, removing a node filters it out of every other node's lineage |
| `HistoryGraph.ContractAllFiltersLineage` | angr/state_hierarchy.py:130-155 | the same for any sequence of removed nodes |
| `HistoryGraph.DescendantIsEarlier` | angr/state_hierarchy.py:252-253 | in the order in which ancestors are tried, descendants come before them |
| `HistoryGraph.LawfulExists` | angr/state_hierarchy.py:157-161 | for every acyclic graph there is an order with descendants first, so the library that is assumed exists |
| `HistoryGraph.TwoHistoriesTwoStates` | angr/state_hierarchy.py:250-258 | two histories below a node mean at least two states to merge |
| `HistoryGraph.StateHierarchy.RemoveHistory` | angr/state_hierarchy.py:91-108 | contracts the node in place and drops it from leaves and twigs |
| `HistoryGraph.StateHierarchy.AddHistory` | angr/state_hierarchy.py:114-128 | node, edge, leaves and twigs after adding a history |
| `HistoryGraph.StateHierarchy.Simplify` | angr/state_hierarchy.py:130-133 | contracts every twig, in some order, leaves no twigs and takes them from the leaves |
| `HistoryGraph.StateHierarchy.Lineage` | angr/state_hierarchy.py:141-155 | the loop yields the histories above a node, oldest first |
| `HistoryGraph.StateHierarchy.FindRootUnreachable` | angr/state_hierarchy.py:179-203 | the binary search finds the first unreachable history, except that it returns the second when the oldest of several is unreachable |
| `HistoryGraph.OldestOverlooked` | angr/state_hierarchy.py:184-197 | a lineage whose oldest history is the first unreachable one and is not returned |
| `HistoryGraph.StateHierarchy.MostMergeable` | angr/state_hierarchy.py:241-262 | partitions the states; the ancestor has two of them strictly below it and no descendant with two; none is returned only when no node has two |
| `SimManager.NothingVanishes` | angr/sim_manager.py:459-496 | every stepped state adds to some bucket or is listed as an error, whatever the hooks return |
| `SimManager.LeavesTrace` | angr/sim_manager.py:459-503 | a step ends as if a state had not been in the stash if and only if the state is not listed as an error and all it adds goes to dropped stashes |
| `SimManager.NothingDropped` | angr/sim_manager.py:459-503 | without dropped stashes every stepped state leaves a trace |
| `SimManager.FilteredAway` | angr/sim_manager.py:460-466 | a filter that answers with a dropped stash leaves no trace of the state |
| `SimManager.StateLost` | angr/sim_manager.py:460-466 | a step after which all stashes are empty and no error is listed |
| `SimManager.LeftIsPlaced` | angr/sim_manager.py:480-496 | the dictionary bookkeeping places a state's successors as the accounting says |
| `SimManager.HandledAppends` | angr/sim_manager.py:459-496 | handling a state only appends to buckets |
| `SimManager.SimulationManager.Step` | angr/sim_manager.py:455-507 | stashes and error list become exactly the accounted ones, in order; no other stash loses a state; an unknown stash is an error |
| `SimManager.SimulationManager.StepAll` | angr/sim_manager.py:459-496 | the loop over the stepped states fills the buckets and the error list as accounted |
| `SimManager.SimulationManager.StepOne` | angr/sim_manager.py:459-496 | one state: filter-routed, kept by the selector, or replaced by its successors |
| `SimManager.SimulationManager.Categorize` | angr/sim_manager.py:475-496 | only unsat states are kept, nothing at all is deadended, otherwise unsat is dropped unless saved |
| `SimManager.SimulationManager.ExtendBucket` | angr/sim_manager.py:495-496 | the loop over the dictionary extends each bucket, the unnamed one under the target |
| `SimManager.SimulationManager.Distribute` | angr/sim_manager.py:499-503 | every bucket is appended to its stash, whatever the order |
| `SimManager.SimulationManager.StepState` | angr/sim_manager.py:509-541 | the successor lists and the error record of each outcome |
| `SimManager.SimulationManager.StoreStates` | angr/sim_manager.py:824-829 | appends, unless the stash is dropped automatically |
| `SimManager.SimulationManager.ClearStates` | angr/sim_manager.py:831-833 | empties one stash and no other |
| `SimManager.MatchingMembers` | angr/sim_manager.py:848-852 | both lists hold exactly the states that pass, and fail, the test |
| `SimManager.MatchingConservesLeaves` | angr/sim_manager.py:848-852 | splitting a list keeps every state exactly once |
| `SimManager.SimulationManager.Move` | angr/sim_manager.py:616-633 | states that pass go to the target, the others stay, no other stash changes, an unknown stash is an error |
| `SimManager.Group` | angr/sim_manager.py:799-806 | every key of a state is listed once, with all its states: as a state that is alone, or as a group of at least two |
| `SimManager.MergeProgress` | angr/sim_manager.py:888-894 | one round leaves fewer states, made of the same original ones |
| `SimManager.SimulationManager.Choose` | angr/sim_manager.py:862-886 | what is merged now, what later, and under which history |
| `SimManager.SimulationManager.AddMerged` | angr/sim_manager.py:888-889 | the merged state gets a new history, and the hierarchy stays acyclic |
| `SimManager.SimulationManager.MergeStates` | angr/sim_manager.py:854-894 | terminates; the result is made of every input state exactly once; it fails only for a single state, or when some two or more states made of the given ones cannot be merged; without a hierarchy two states never merge |
| `SimManager.TwoStatesFail` | angr/sim_manager.py:864-876 | two states of a manager without a hierarchy, whose merge fails |
| `SimManager.SimulationManager.MergeGroups` | angr/sim_manager.py:808-814 | each group becomes one state made of exactly its states, or stays as it was when some of them cannot be merged |
| `SimManager.SimulationManager.MergeGroup` | angr/sim_manager.py:809-814 | one state made of exactly the group, or the group itself when some of it cannot be merged |
| `SimManager.MergedToOnePerKey` | angr/sim_manager.py:799-817 | when every list can be merged, exactly one state per key is left, made of exactly the states with that key |
| `SimManager.SimulationManager.Merge` | angr/sim_manager.py:777-818 | the stash holds the same original states as before, merged key by key: one state for each key when every list can be merged; other stashes are untouched; without a hierarchy it fails exactly when two states share a key |
| `SimTypes.OffsetsOf` | angr/sim_type.py:1569-1597 | the loop over fields computes the offsets |
| `SimTypes.AlignedToLargest` | angr/sim_type.py:1678-1683 | a scalar is aligned to its size, and any type to its largest scalar |
| `SimTypes.LayoutOf` | angr/sim_type.py:1569-1597 | every field of an unpacked struct is aligned, starts where the previous ends plus less padding than its alignment, and ends inside the struct |
| `SimTypes.FieldsDisjoint` | angr/sim_type.py:1569-1597 | different fields share no byte |
| `SimTypes.ElementsAligned` | angr/sim_type.py:1020-1030 | array elements are all aligned if and only if there is at most one or the element's size is a multiple of its alignment |
| `TypeMemory.StoreWithin` | angr/sim_type.py:1693-1707 | a store changes no byte outside the type's size, if no array gets more values than elements |
| `TypeMemory.ExtractLocal` | angr/sim_type.py:1609-1619 | extracting depends only on the bytes of the type |
| `TypeMemory.ScalarRoundTrip` | angr/sim_type.py:532-539 | an integer of either sign that fits is read back |
| `TypeMemory.ExtractedFits` | angr/sim_type.py:1609-1619 | what is extracted is in range and has the shape of the type |
| `TypeMemory.RoundTrip` | angr/sim_type.py:1054-1068 | for any nesting of structs, arrays and integers, extract after store returns the values if and only if they are in range and every array gets as many as it has elements |
| `TypeMemory.LeavesStored` | angr/sim_type.py:1693-1707 | after a store, each byte of each scalar of the value, at any depth of structs and arrays, is at the sum of its field and element offsets, in the order of the endness |
| `TypeMemory.StoreOfExtract` | angr/sim_type.py:1609-1619 | storing what was extracted changes no byte |
| `TypeMemory.SimState.StoreTyped` | angr/sim_type.py:454-467 | storing in place is the store function |
| `TypeMemory.SimState.StoreStruct` | angr/sim_type.py:1693-1707 | the loop over offsets stores every field |
| `TypeMemory.SimState.StoreArray` | angr/sim_type.py:1064-1068 | the loop stores every given value, however many |
| `SystemVClassify.Combine` | angr/calling_conventions.py:1748-1759 | combining is the maximum in the order of classes |
| `SystemVClassify.LeavesInside` | angr/calling_conventions.py:1716-1746 | flattened scalars lie inside the type |
| `SystemVClassify.MergedIsMaximum` | angr/calling_conventions.py:1696-1705 | each eightbyte's merged class is the maximum over the leaves that cover it, or none |
| `SystemVClassify.OrderIndependent` | angr/calling_conventions.py:1696-1705 | leaves in any order, with any repetition, merge to the same classes |
| `SystemVClassify.NaturallyAligned` | angr/calling_conventions.py:1700-1705 | a naturally aligned leaf never makes the classification raise |
| `SystemVClassify.NaturalIsClassified` | angr/calling_conventions.py:1679-1713 | a type of scalars of 1 to 16 bytes, without packed structs and with aligned array elements, is always classified |
| `SystemVClassify.StraddlingRaises` | angr/calling_conventions.py:1700-1705 | a struct whose classification raises |
| `SystemVClassify.AllOrNoMemory` | angr/calling_conventions.py:1706-1713 | one class per eightbyte, all MEMORY or none |
| `SystemVClassify.MemoryExactly` | angr/calling_conventions.py:1688-1713 | an aggregate is MEMORY if and only if it is longer than 64 bytes, has a packed part, or has more than two eightbytes that are not SSE followed only by SSEUP |
| `SystemVClassify.AggregateClasses` | angr/calling_conventions.py:1688-1713 | an aggregate's classes are the maxima over its leaves, with a stray SSEUP read as SSE |
| `SystemVClassify.MergeLeaf` | angr/calling_conventions.py:1700-1705 | the inner loop merges one leaf into the eightbytes it covers, or raises |
| `SystemVClassify.MergeAll` | angr/calling_conventions.py:1696-1705 | the outer loop merges all leaves, or raises if one is unreadable |
| `SystemVClassify.FixStraySseUp` | angr/calling_conventions.py:1710-1712 | the in-place pass reads a stray SSEUP as SSE |
| `SystemVClassify.Classify` | angr/calling_conventions.py:1679-1714 | the loops compute the classification |
| `SystemVAlloc.WhollyPlaced` | angr/calling_conventions.py:1615-1637 | an argument is wholly in registers, exactly when enough are left, or wholly on the stack, and then consumes no register |
| `SystemVAlloc.PlacedInOrder` | angr/calling_conventions.py:1615-1637 | word by word: the next integer register for INTEGER, the next vector register for SSE, in order; or the next stack slot for each, when registers do not suffice |
| `SystemVAlloc.OwnBytesDiffer` | angr/calling_conventions.py:1615-1639 | different bytes of one argument lie in different places |
| `SystemVAlloc.FootprintsDisjoint` | angr/calling_conventions.py:876-880 | different arguments of a call share no register or stack byte |
| `SystemVAlloc.ClassesArePlain` | angr/calling_conventions.py:1619-1634 | classifications are fit for allocation, with a word for every eight bytes |
| `SystemVAlloc.RefineScalar` | angr/calling_conventions.py:143-160 | the pieces of a scalar cover its bytes in order, each within one word |
| `SystemVAlloc.RefineLocs` | angr/calling_conventions.py:143-183 | for every nesting of structs, arrays and unions, the pieces of each scalar are the stretch of bytes at its offset |
| `SystemVAlloc.LongestFound` | angr/calling_conventions.py:177-181 | a union with members has one of full size |
| `SystemVAlloc.TiledIsClassified` | angr/calling_conventions.py:161-183 | without unions the scalars that get places are the ones that are classified |
| `SystemVAlloc.ArgSession.Next` | angr/calling_conventions.py:212-246 | the next location of an iterator, or exhaustion without a change |
| `SystemVAlloc.ArgSession.SetState` | angr/calling_conventions.py:587-591 | restores all three iterators |
| `SystemVAlloc.ArgSession.AllocateArg` | angr/calling_conventions.py:1618-1637 | the loop with its rollback is the allocation function; it raises only for SSEUP or a missing class |
| `SystemVAlloc.ArgSession.FillStack` | angr/calling_conventions.py:1637-1637 | one stack slot for every class |
| `Callsite.ComputeStackSpace` | angr/calling_conventions.py:735-748 | the loop computes the room for the farthest stack argument |
| `Callsite.LocsApart` | angr/calling_conventions.py:788-824 | no two arguments share a register or a stack byte |
| `Callsite.LocsByCount` | angr/calling_conventions.py:788-824 | an argument with k earlier ones of its kind is in register k of that kind if there is one, and otherwise at the first stack slot plus a word for each earlier argument that found no register; its size is its own |
| `Callsite.SerializeKeeps` | angr/calling_conventions.py:1041-1125 | the bump allocator keeps dumps apart, and the serialized value stands for the argument, through nested pointers |
| `Callsite.SerializeAllKeeps` | angr/calling_conventions.py:933-933 | the same for all arguments of a call |
| `Callsite.ApplyStores` | angr/calling_conventions.py:82-86 | after all dumps are written, each is still in memory |
| `Callsite.GetAll` | angr/calling_conventions.py:994-996 | locations that are apart keep what was put in them |
| `Callsite.CallRoundTrip` | angr/calling_conventions.py:892-998 | the callee reads every argument as passed, through pointers too; the stack pointer is aligned and has not wrapped, the return address is in place, memory above the old stack pointer is untouched |
| `Callsite.AllocHelper.StandardizeValue` | angr/calling_conventions.py:1041-1125 | standardizing with the allocator in place is serialization |
| `Callsite.AllocHelper.DumpList` | angr/calling_conventions.py:65-69 | records the list and returns its address, moving the pointer |
| `Callsite.AllocHelper.StandardizeAll` | angr/calling_conventions.py:1105-1108 | the same for the elements of a list |
| `Callsite.AllocHelper.Reserve` | angr/calling_conventions.py:60-63 | returns the pointer and moves it |
| `Callsite.AllocHelper.ApplyTo` | angr/calling_conventions.py:82-86 | the loop writes every dump at its translated address |
| `Callsite.SimState.DecideStack` | angr/calling_conventions.py:960-971 | the auxiliary base, and the aligned stack pointer below the arguments |
| `Callsite.SimState.StoreAll` | angr/calling_conventions.py:994-996 | the loop puts every translated value in its location |
| `Callsite.SimState.SetupCallsite` | angr/calling_conventions.py:892-998 | setting up a call in place is the setup function |
| `TableSpec.StringTableSpec.AddString` | angr/tablespecs.py:45-56 | appends the string with its NUL and keeps the length |
| `TableSpec.StringTableSpec.AddPointer` | angr/tablespecs.py:58-59 | appends a pointer |
| `TableSpec.StringTableSpec.DumpTo` | angr/tablespecs.py:64-91 | the computed start and the written memory are the table's layout and dump |
| `TableSpec.DumpStores` | angr/tablespecs.py:74-86 | no entry overwrites another: all words and strings are in memory at the end |
| `TableSpec.LayoutTiles` | angr/tablespecs.py:67-72 | words, strings and fill tile the stretch up to the end, and the start is aligned |
| `TableSpec.StringTableSpec.DumpLoop` | angr/tablespecs.py:74-86 | the loop is the recursive dump |
| `TableSpec.EntryOf` | angr/tablespecs.py:74-86 | word i read back is the i-th pointer, or the address of the i-th entry's bytes |
| `TableSpec.TableDumped` | angr/tablespecs.py:64-91 | table, strings and zeros tile [start, end), start is aligned, every entry holds, zeros are zero, nothing else changed |
| `CalleeCleanup.ScanReturn` | angr/analyses/callee_cleanup_finder.py:59-64 | the constant added last, if no instruction mark comes after it |
| `CalleeCleanup.CleanupByIndex` | angr/analyses/callee_cleanup_finder.py:55-64 | a returning block cleans up v less a word if and only if some statement adds v and no addition or mark comes after it |
| `CalleeCleanup.Expand` | angr/analyses/callee_cleanup_finder.py:65-69 | exactly the successors not seen before |
| `CalleeCleanup.StepDecreases` | angr/analyses/callee_cleanup_finder.py:53-69 | expanding an unseen block leaves fewer unseen; expanding a seen one brings the first unseen entry closer |
| `CalleeCleanup.NearerSeen` | angr/analyses/callee_cleanup_finder.py:53-69 | every block nearer than the front of the queue has been examined |
| `CalleeCleanup.FrontIsNearest` | angr/analyses/callee_cleanup_finder.py:53-69 | when no examined block has a cleanup, none is nearer than the front of the queue |
| `CalleeCleanup.Analyze` | angr/analyses/callee_cleanup_finder.py:49-71 | terminates for finitely many reachable blocks, returns the cleanup of a nearest block that has one, and gives up only when none has |

## Left out

- Symbolic values, solving, state plugins, weak references, locks and garbage collection: values are concrete, the solver and `networkx` are parameters with the properties they are used for.
- Floating point, vectors, rounding modes, helper calls (CCall), guarded loads and compare-and-swap in the VEX to AIL translation; atom numbering and tags of AIL objects.
- A block that ends in a system call, and the return-value registers of a call statement.
- SliceSoundness.SliceSound: sufficient only for a whole block, because what one statement loses need not reach a target; memory is a map of equal-width cells and exits are fallen through, because the slicer itself knows no widths and follows no exits.
- Callbacks of the slicer, and IR statements it has no handler for.
- Blade.Blade.BackwardSlice: which temps or registers the destination statement uses is an argument, and the slicer is a function of its targets.
- p-code branches, calls, unary and signed operations, remainders and floats; the mapping of register names to offsets is taken as done.
- PcodeToAil.PartialReadExactly: a unique offset below the counter names a temp that holds something else, of which nothing is said.
- PcodeToAil.PCodeIRSBConverter.ReadVarnode: the shift amount of a partial read is the eight-bit pattern of the constant the code writes.
- VexBlockToAil.RunPreserved: for blocks whose skipped guards and next address are atoms, as in every block VEX hands out.
- AilReplace.ReplacePreserves: unguarded loads only, because replacing in a guarded load drops its guard.
- BlockWalker.WalkPreserves: temps that the block assigns are not rewritten, because the walker also rewrites destinations; registers and memory count as changed when the block writes any of them.
- Call arguments, Phi, dirty and multi-statement expressions in the walker.
- KeyedRegionRefinement.StoreRefinesExactly: strong and weak updates with objects the region does not hold yet, because one it holds can hide that bytes were missed; for merging to top only the good shapes are proved right, and the option that lets phi nodes replace what they contain is off.
- Regions.KeyedRegion.StoreObject: objects of positive size, because an empty item covers no offset.
- Merging, copying and replacing whole regions.
- SimManager.SimulationManager.Merge: a stash that is not dropped automatically, without pruning first and without a merge function of the caller's.
- SimManager: `prune`, `split`, `populate`, exploration techniques, stash names that stand for several stashes, and what a step reports to the hierarchy.
- Pruning of unreachable subtrees and `full_simplify` in the history graph.
- SimTypes.LayoutOf: a struct's alignment is that of its fields; the explicit alignment attribute is left out.
- SimTypes.AlignedToLargest: a double is aligned to its size; doubles aligned to four bytes are left out.
- Bit fields, pointers to other types, strings, unions and floats in typed memory; a struct value of the wrong shape, on which storing raises.
- SystemVAlloc.RefineLocs: a union without members, and types that are treated as integers, are left out.
- SystemVAlloc.ArgSession.AllocateArg: starts from the classes, so an array argument is not turned into a pointer first; after SSEUP or a missing class nothing is said, because allocation then raises.
- Callsite.CallRoundTrip: little-endian, word-or-smaller numbers and pointers to lists of them; no arguments by reference, no implicit out-parameter, default stack and allocation bases; data, arguments and alignment fit below the stack pointer.
- Callsite.SimState.DecideStack: the stack pointer is an integer, so nothing is said of one that wraps around.
- Addresses that wrap around in table dumping.
- Reading the last constant of an addition whose second operand is not a constant, where the search for a return raises.
- Project loading, hooks, C declaration parsing, control-dependence graphs and the command line, which are plumbing around other libraries.
