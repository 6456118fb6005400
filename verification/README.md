# Verified model of the compiler mid-end and of the moving collector

Two subsystems are modelled in Dafny and proved correct.

**The compiler** (`jit/ir/graph`). Control-flow graphs, paths and path dominance are in `Cfg`. The dominator tree is the
class `DomTree` of `DomTree.dfy`: depth-first numbers, semidominators by marked backward search, immediate dominators by
the walk up the spanning tree; `DomTheory` holds the theory of spanning trees and semidominators behind it. `Dominance`
has the queries that follow the links and the block-exclusion check. `Rpo` is the reverse post-order, `Postorder` the
theory of it. `Ir` defines the instructions, an executor (64-bit wrap-around words, checks that trap or pass their last
operand through, immutable arrays, calls and parameters as inputs) and strict SSA form; `Ssa` proves that at every point
of every run, loops included, a dominating pure instruction is up to date. `Rewrite` proves once, for replacing an
instruction by others, that all runs stay the same. `DefUse`, `Layout` and `InstGraph` are the mutable graph: intrusive
user chains, doubly linked instruction lists, and the operations that change them by pointer assignment.
`ChecksElimination` and `Peepholes` (with `PeepholeRules`, `PeepholePatterns` and `Bits`) are the two passes on that
graph; `UnsignedShift` is a program the second one changes, and `UnsignedRun` runs it there. `LinearOrder`, `Liveness`
(with `LivenessSpec`, `LiveCoverage`, `LiveOrder`), `FillIntervals`, `LiveIntervals`, `SpillChoice`, `Reloads` and
`RegAlloc` (with `RegAllocState`, `RegAllocPlaces`, `SpillLog`) are the back half; `AllocationInput` says what the
analysis hands to the allocation, and `Backend` puts both together: when they succeed, and that what is needed at the
same time is kept in different places. `Example` has a small program that meets the assumptions of these theorems, and
on which the allocation succeeds; `TwoArms` and `SpillRuns` have small graphs and programs that the methods of the
linear order and of the allocation walk through step by step, to show where properties fail.

**The collector** (`allocator`). `HeapModel` is the heap as a graph with reachability and renaming of addresses, `HeapSpace`
the regions and copying, `HeapMark` marking, `HeapSizes` space, `HeapRebind`, `HeapMove`, `HeapPhases` and `HeapNesting` the
phases and what a collection in the middle of another one leaves behind, `HeapAlloc` allocation. The class `Memory` of
`Collector.dfy` has the operations themselves.

Conventions. Instructions, blocks and addresses are natural numbers; a pointer that may be null is an `Option`, a `BlockRef`
or a missing map entry. A failing assertion, a fatal log message or a dereferenced null pointer is the result `ok == false`
(or `Crashed`); nothing is promised about the state then. Ghost parameters such as `live` (the reachable objects), `b` and
`k` (where an instruction stands) or `rank` have no counterpart in the source; they name what the contract speaks about.
Methods of the source that are one long body are split where a proof needs a middle; the comment in front of a method names
the source function.

What a peephole or the check elimination preserves is `Ir.SameRuns`: on every machine and for every number of blocks
executed, the same blocks, calls, trap or returned value are observed.

Results that differ from what the code or its comments suggest:

- A pair of shifts by 32 on `UINT64` becomes a cast that clears the high word; the arithmetic shift of the executor extends
  the sign. `UnsignedRun.RunPass` runs the pass on a program whose result changes, `PeepholeRules.CastUnsignedExact` says
  for which values both agree, and the pass keeps the runs of programs in which no such pair can come about.
- The walk over a block in `Peepholes` ends after the first replacement, because the links of the replaced instruction are
  null (`Peepholes.Pass.VisitBlock`). A new instruction at either end of a block follows a null pointer, and shifts of other
  amounts or types fail assertions: `PeepholePatterns.CrashesAt` is exact. On `PeepholePatterns.Calm` programs the pass
  comes to its end.
- `SetInput` on a filled slot follows a null pointer when the slot is the head of its user chain
  (`InstructionGraph.InstGraph.SetInput`).
- `DomTreeCheck` is one-sided: it passes exactly when no dominance is missing from the links
  (`Dominance.DomTreeCheck.Check`), so it can accept wrong links (`Dominance.CheckAcceptsWrongTree`).
- `LinearOrder` places all blocks exactly when no set of blocks is stuck. That follows from reachability when the edges are
  acyclic but for those from a loop to its header, and every header has a predecessor of another loop, as the headers of
  reducible loops have (`LinearOrdering.ReducibleEntered`). The assertion at linear_order.h:57, that back edges are marked
  once the inner successors of a block have been tried, holds in every walk if the blocks of each loop, those of the loops
  inside it included, have only one possible order (`LinearOrdering.AllOneWay`). It fails in every walk that places all
  blocks of a graph with a loop of two arms, neither of which leads to the other but through the header
  (`LinearOrdering.HasArms`). `TwoArms.WalkLine` and `TwoArms.WalkDiamond` are a walk of each kind.
- The interval that is spilled is the last candidate. It is the one whose next use is furthest away when every active
  interval has a next use (`SpillChoice.FurthestIfUsed`), in general exactly under the condition of
  `SpillChoice.FurthestIff`. In the run `SpillRuns.SpillUsed` an interval that is used again is spilled instead of one that
  is not.
- The comment at reg_alloc.h:66-67 says that a reload never takes the register of another operand; in the run
  `SpillRuns.LoseOperand` it does. An operand is without a register in the end exactly when the reload of another one chose
  it and it is not reloaded behind that (`Reloads.LostIff`). Nothing is spilled exactly when the active
  intervals and the operands to be reloaded do not outnumber the registers (`Reloads.SpillsIff`); then all operands are in
  registers (`Reloads.NoneLost`).
- The allocation fails an assertion when it has to spill a value at its own definition, another phi of the block. One visit
  fails exactly then (`RegAlloc.RegAlloc.Visit`). With one phi at most in every block, or registers for all that lives
  across the start of the others, that never happens; with more phis in a block than registers it always does
  (`Backend.AllocateRegisters`). In between it depends on the next uses: with two phis and two registers the run
  `SpillRuns.FailAtPhi` fails.
- The liveness analysis fails an assertion exactly when a phi has no user or an instruction without a result has one
  (`LiveCoverage.BlocksOkIff`).

The linear order of the source ends with an element without a block; here that element is the number `life`.

## Model

| member | source | states |
|---|---|---|
| DomTheory.SemiBoundsDominators | jit/ir/graph/analyses/dom_tree.h:122-147 | A strict dominator of a block lies on the tree path down to its semidominator or above it |
| DomTheory.IdomIsSemi | jit/ir/graph/analyses/dom_tree.h:140-141 | When no block between a block and its semidominator has a lower semidominator, the semidominator is the immediate dominator |
| DomTheory.IdomIsShared | jit/ir/graph/analyses/dom_tree.h:142-145 | Otherwise the block shares the immediate dominator of the block in between whose semidominator is lowest |
| DominatorTree.DomTree.DFS | jit/ir/graph/analyses/dom_tree.h:40-53 | Numbers exactly the blocks newly reached, in preorder, as a subtree whose numbers form an interval and whose blocks have all successors numbered |
| DominatorTree.DomTree.EnumerateBlocks | jit/ir/graph/analyses/dom_tree.h:23-38 | Succeeds exactly when every block is reachable, and then the numbers and parents form a depth-first spanning tree |
| DominatorTree.DomTree.FindPredWithLessThan | jit/ir/graph/analyses/dom_tree.h:96-120 | Visits each unmarked block numbered at least the bound that reaches the start through such blocks once, and returns the lowest numbered predecessor below the bound of the blocks visited |
| DominatorTree.SemiSearch | jit/ir/graph/analyses/dom_tree.h:79-83 | What the marked search finds is the lowest start of all paths through this predecessor whose interior is numbered above the block |
| DominatorTree.DomTree.FindSemiDom | jit/ir/graph/analyses/dom_tree.h:71-94 | Returns and records the true semidominator: the lowest numbered block with a path to the block whose interior is numbered above it |
| DominatorTree.DomTree.LowestSemidomBelow | jit/ir/graph/analyses/dom_tree.h:130-139 | The walk from a block up to its semidominator finds a block with the lowest semidominator in between |
| DominatorTree.DomTree.CollectIdoms | jit/ir/graph/analyses/dom_tree.h:122-147 | From true semidominators, every block but the entry gets its immediate dominator, and the entry gets null |
| DominatorTree.DomTree.Build | jit/ir/graph/analyses/dom_tree.h:9-15 | Succeeds exactly when all blocks are reachable; then the links are the immediate dominators under the path definition |
| Dominance.ChainIsDominance | jit/ir/graph/graph.h:109-127 | Following the links from a block passes exactly the blocks that lie on every path from the entry to it |
| Dominance.IsDominator | jit/ir/graph/graph.h:110-127 | The loop ends on any links that lead to the entry, and tells whether the first block is on the chain of the second |
| Dominance.BlockDominates | jit/ir/graph/basic_block.cpp:6-17 | The same for the loop that runs until null |
| Dominance.DominanceQueries | jit/ir/graph/graph.h:110-127 | With the dominator tree both queries answer path dominance |
| Dominance.DomTreeCheck.CollectBlocks | jit/ir/graph/analyses/dom_tree.h:193-204 | Collects exactly the blocks reached without the ignored one, and all their other successors |
| Dominance.DomTreeCheck.Check | jit/ir/graph/analyses/dom_tree.h:169-191 | The block-exclusion check passes exactly when all blocks are reachable and every dominator of a block is on its chain |
| Dominance.CheckPassesOnDomTree | jit/ir/graph/analyses/dom_tree.h:164-191 | On the dominator tree it cannot fail |
| Dominance.CheckAcceptsWrongTree | jit/ir/graph/analyses/dom_tree.h:182-187 | On a diamond it also passes for links that claim one arm dominates the join |
| InstructionGraph.InstGraph.Dominates | jit/ir/graph/instructions.cpp:10-23 | For instructions in blocks: in one block, whether the first stands in front; in two, whether the chain of the second block has the first block |
| InstructionGraph.DominatesPoint | jit/ir/graph/instructions.cpp:10-23 | In strict SSA form with the dominator tree that answer is whether the one is defined in front of the other on every path |
| ReversePostOrder.RPO.DFS | jit/ir/graph/analyses/rpo.h:22-32 | Places exactly the unmarked blocks it reaches in front of those placed, in the order of the recursive walk on values (`Postorder.Visit`), every strict dominator still in front of its block |
| ReversePostOrder.RPO.Build | jit/ir/graph/analyses/rpo.h:9-15 | Succeeds exactly when all blocks are reachable; then lists every block once with all strict dominators in front, and a block in front of one of its predecessors only if it leads back to it: the order is the reverse postorder from the entry |
| Postorder.WalkSettled | jit/ir/graph/analyses/rpo.h:22-32 | In the order of the recursive walk every edge either leads forward or ends in a block from which its start is reached |
| Postorder.EdgesForward | jit/ir/graph/analyses/rpo.h:22-32 | So on graphs without cycles every edge leads forward |
| Ssa.CurrentStep | jit/ir/graph/optimizations/checks_elimination.h:46-58 | One instruction keeps every dominating pure instruction equal to its operation on the latest operand values, and adds itself |
| Ssa.CurrentEdge | jit/ir/graph/optimizations/checks_elimination.h:46-58 | So does entering a block with its phis, back edges included |
| Ssa.RunIsCurrent | jit/ir/graph/optimizations/checks_elimination.h:46-58 | At every block start of every run each dominating pure instruction is up to date |
| Rewrite.ApplyStrict | jit/ir/graph/gen/inst.inl:26-37 | Replacing an instruction and redirecting its users keeps strict SSA form |
| Rewrite.SimNext | jit/ir/graph/gen/inst.inl:26-37 | One block of both programs, started in related states, ends in related states with the same trap, return, calls and branch |
| Rewrite.ApplySound | jit/ir/graph/gen/inst.inl:26-37 | A replacement that gives the same value where it stands keeps every run of the whole program |
| DefUse.Unlink | jit/ir/graph/instructions.h:268-277 | Taking one user out of a chain leaves all chains acyclic, duplicate free and exact but for that user |
| DefUse.RedirectConsistent | jit/ir/graph/graph.cpp:102-117 | Redirecting the users of an instruction that has left its operands' chains makes the two chains one and keeps all chains exact |
| DefUse.AppendConsistent | jit/ir/graph/instructions.h:259-266 | Writing a slot that is in no chain puts it at the head of its operand's chain and keeps all chains exact |
| InstructionGraph.InstGraph.constructor | jit/ir/graph/basic_block.h:109-119 | Empty blocks with phis that have no operands yet are a consistent graph |
| InstructionGraph.InstGraph.New | jit/ir/graph/graph.h:49-54 | A new instruction has a fresh id, empty slots, no users and no block |
| InstructionGraph.InstGraph.PushBack | jit/ir/graph/basic_block.h:94-107 | An instruction without a block becomes the last of its block, with both links and both ends right |
| InstructionGraph.InstGraph.FindAndRemoveFromChain | jit/ir/graph/instructions.h:268-277 | The search along the links finds the user and unlinks exactly it |
| InstructionGraph.InstGraph.RemoveUser | jit/ir/graph/graph.cpp:129-136 | Removes one user from its chain, head or not; the other chains stay |
| InstructionGraph.InstGraph.ClearInputs | jit/ir/graph/graph.cpp:119-127 | All slots of the instruction leave their chains, and only they |
| InstructionGraph.InstGraph.ReplaceUsersTo | jit/ir/graph/graph.cpp:102-117 | Every slot that held the one holds the other; the chain of the other is the concatenation of both |
| InstructionGraph.InstGraph.ReplaceInBB | jit/ir/graph/graph.cpp:41-85 | The new instruction takes the place of the old one, or the old one is only unlinked if the new one has a place; fails exactly for a new one at an end of the block |
| InstructionGraph.InstGraph.ReplaceWith | jit/ir/graph/gen/inst.inl:26-31 | Keeps the graph consistent, changes exactly the slots that held the instruction, and concatenates the chains |
| InstructionGraph.InstGraph.Prepend | jit/ir/graph/graph.cpp:87-100 | Inserts in front of an instruction; fails exactly in front of the first one |
| InstructionGraph.InstGraph.ReplaceUserWith | jit/ir/graph/instructions.h:237-257 | A slot goes from the chain of one operand to the head of another's, and all chains stay exact; fails exactly at the head of a chain |
| InstructionGraph.InstGraph.SetInput | jit/ir/graph/instructions.h:352-365 | The slot becomes the head of its new operand's chain, and leaves that of an old one; nothing else changes; fails exactly for a filled slot at the head of its chain |
| InstructionGraph.InstGraph.ReplaceByValue | jit/ir/graph/gen/inst.inl:26-31 | On pointers what `Rewrite.Apply` says on programs: the instruction is gone and its users read the other one |
| InstructionGraph.InstGraph.ReplaceByNew | jit/ir/graph/optimizations/peepholes.h:109-112 | Creating, replacing and filling the slots amounts to one replacement by a fresh instruction |
| InstructionGraph.InstGraph.ReplaceByPair | jit/ir/graph/optimizations/peepholes.h:84-98 | The same for two fresh instructions, one in front of the other |
| ChecksElimination.RemovalSound | jit/ir/graph/optimizations/checks_elimination.h:46-53 | Removing a check that an identical one dominates keeps strict SSA form and every run: traps, branches and values |
| ChecksElimination.ProgressRemoved | jit/ir/graph/optimizations/checks_elimination.h:46-53 | After a removal the visited part is still free of redundant checks, and the lists still hold the visited checks |
| ChecksElimination.Pass.FindDominating | jit/ir/graph/optimizations/checks_elimination.h:46-53 | Returns a dominating check with the same opcode and operands, or none if the list has none |
| ChecksElimination.Pass.Visit | jit/ir/graph/optimizations/checks_elimination.h:41-58 | Removes the check exactly when it is redundant, and leaves the graph alone otherwise |
| ChecksElimination.Pass.Run | jit/ir/graph/optimizations/checks_elimination.h:10-20 | The pass keeps every run, leaves no redundant check, and changes nothing when there is none: a second run does nothing |
| Example.SecondCheckRedundant | jit/ir/graph/optimizations/checks_elimination.h:46-53 | In a small program the second of two checks of one value is redundant |
| Bits.ShiftPair | jit/ir/graph/optimizations/peepholes.h:241-253 | Left and arithmetic right shift by 32 is the sign extension of the low word, for every 64-bit value |
| PeepholeRules.FreshSound | jit/ir/graph/optimizations/peepholes.h:57-60 | Replacing by a fresh pure instruction of the same value keeps every run |
| PeepholeRules.ValueSound | jit/ir/graph/optimizations/peepholes.h:104-107 | Replacing by a dominating value that is equal whenever the point is reached keeps every run |
| PeepholeRules.FoldRule | jit/ir/graph/optimizations/peepholes.h:117-125 | On two constants the folded constant is the value |
| PeepholeRules.EqualRule | jit/ir/graph/optimizations/peepholes.h:57-60 | SUB and XOR of equal operands are 0 |
| PeepholeRules.SubNegRightRule | jit/ir/graph/optimizations/peepholes.h:74-83 | x - -y has the value of x + y, where y is the operand of an earlier NEG |
| PeepholeRules.SubNegLeftSound | jit/ir/graph/optimizations/peepholes.h:84-98 | Replacing -z - y by an addition and its negation keeps every run |
| PeepholeRules.SubZeroRightRule | jit/ir/graph/optimizations/peepholes.h:104-107 | x - 0 is x |
| PeepholeRules.SubZeroLeftRule | jit/ir/graph/optimizations/peepholes.h:108-113 | 0 - y is -y |
| PeepholeRules.XorNotRule | jit/ir/graph/optimizations/peepholes.h:174-181 | XOR of a value and its complement, either way round, is all ones |
| PeepholeRules.XorZeroRule | jit/ir/graph/optimizations/peepholes.h:183-190 | 0 ^ y is y |
| PeepholeRules.AshrZeroRule | jit/ir/graph/optimizations/peepholes.h:232-239 | A shift by 0 is its first operand |
| PeepholeRules.CastRule | jit/ir/graph/optimizations/peepholes.h:241-253 | SHL by 32 and ASHR by 32 is the cast to INT32 of the value shifted |
| PeepholeRules.CastUnsignedExact | jit/ir/graph/optimizations/peepholes.h:241-253 | The cast to UINT32 gives the value of the shift pair exactly when bit 31 of the value shifted is clear |
| PeepholeRules.CastUnsignedLow | jit/ir/graph/optimizations/peepholes.h:241-253 | On all current values the cast to UINT32 gives the low word of the value shifted |
| PeepholeRules.CastUnsignedSound | jit/ir/graph/optimizations/peepholes.h:241-253 | Where bit 31 of the value shifted is always clear, the cast to UINT32 keeps every run |
| PeepholePatterns.RewriteCarries | jit/ir/graph/optimizations/peepholes.h:9-16 | Replacing one instruction keeps a program calm, and free of what could become a pair of unsigned shifts |
| UnsignedShift.RunsDiffer | jit/ir/graph/optimizations/peepholes.h:241-253 | A strict program that shifts an unsigned parameter up and down by 32, and the same with the second shift replaced by the cast, under any fresh id, return different values |
| UnsignedShift.PairMatches | jit/ir/graph/optimizations/peepholes.h:241-253 | That shift is the first match, and its replacement does not crash |
| UnsignedShift.PairCalm | jit/ir/graph/optimizations/peepholes.h:9-16 | The program is calm, so that the pass comes to its end on it |
| UnsignedRun.RunPass | jit/ir/graph/optimizations/peepholes.h:9-16 | The pass, run on the graph of that program, comes to its end and leaves the program with the cast, which returns another value |
| Peepholes.Pass.SubNeg | jit/ir/graph/optimizations/peepholes.h:72-100 | Rewrites exactly when an operand is a NEG, the second one first, and the graph becomes exactly x + y or the negation of z + y in its place; every run stays the same; then crashes exactly at an end of the block |
| Peepholes.Pass.SubZero | jit/ir/graph/optimizations/peepholes.h:102-115 | Rewrites exactly when an operand is the constant 0, to the first operand or the negation of the second, of the same type; every run stays the same; then crashes exactly at an end of the block where the second operand is not 0 |
| Peepholes.Pass.VisitSub | jit/ir/graph/optimizations/peepholes.h:48-69 | Rewrites exactly when a pattern of SUB matches; the instruction is gone, what stands in its place has its type and is that of the first pattern that matches, and every run is the same; crashes exactly when the match would put a new instruction at an end of the block |
| Peepholes.Pass.VisitXor | jit/ir/graph/optimizations/peepholes.h:136-161 | The same for XOR |
| Peepholes.Pass.VisitAshr | jit/ir/graph/optimizations/peepholes.h:201-217 | The same for ASHR, except for the runs of a pair of shifts by 32 on UINT64, which becomes the cast to UINT32 of the value shifted; crashes also exactly on shift amounts and types the patterns do not allow |
| Peepholes.Pass.TryApply | jit/ir/graph/optimizations/peepholes.h:18-39 | Chooses the visitor by opcode: skips exactly what does not match, crashes exactly where the visitors do, and otherwise leaves the graph of the program with that one replacement, with the same runs unless it replaces a pair of unsigned shifts |
| Peepholes.Pass.VisitBlock | jit/ir/graph/optimizations/peepholes.h:12-14 | Replaces the first instruction that matches by what the visitors replace it by, keeping the runs unless it is a pair of unsigned shifts, and leaves the graph unchanged if none does; comes to its end exactly when that first match does not crash |
| PeepholePatterns.WalksKeepRuns | jit/ir/graph/optimizations/peepholes.h:9-16 | Walks over any number of blocks keep every run as long as none of them replaces a pair of unsigned shifts |
| Peepholes.Pass.Run | jit/ir/graph/optimizations/peepholes.h:9-16 | Walks over the blocks in their order, each making the replacement of the first match it finds and no other change, and ends early exactly at a block whose first match crashes: never on a calm program; keeps every run if no walk replaces a pair of shifts by 32 on UINT64, as in programs where none can come about, and changes nothing if nothing matches |
| LinearOrdering.LinearOrder.AllSidePredsMarked | jit/ir/graph/analyses/linear_order.h:67-83 | Tells whether all predecessors are placed, those of a header's own loop excepted |
| LinearOrdering.LinearOrder.AssignLifeNumbers | jit/ir/graph/analyses/linear_order.h:95-106 | Appends the block; its phis get its number and its instructions the even numbers behind it; other numbers stay |
| LinearOrdering.LinearOrder.AllBackEdgesMarked | jit/ir/graph/analyses/linear_order.h:85-93 | Tells whether the sources of all back edges of the loop are placed |
| LinearOrdering.LinearOrder.DFS | jit/ir/graph/analyses/linear_order.h:35-65 | Places only blocks whose side predecessors are placed, and leaves no block that could be placed next; every block it places can be reached from the start of the walk through blocks it places; lists of blocks with one possible order are placed as a whole; while the assertion about back edges holds, the loops it enters are left only when their back edges are marked; the order is that of the walk on values, successors inside the loop first |
| LinearOrdering.LinearOrder.Build | jit/ir/graph/analyses/linear_order.h:10-20 | All blocks are placed exactly when no set of blocks is stuck, and so if they are reachable, the edges are acyclic but for those from a loop to its own header, and every header is entered from another loop; the assertion about back edges holds throughout if all loops have one possible order, and has failed if all blocks are placed and a loop has two arms; if it has held and no edge leaves more than one loop at a time, every exit of a loop stands behind all back edges of the loop, so that no exit stands inside |
| LinearOrdering.ExitPlaced | jit/ir/graph/analyses/linear_order.h:51-64 | Placing a block keeps every exit behind the back edges of its loop, if the loops entered that do not hold the block have theirs marked |
| LinearOrdering.SuccDone | jit/ir/graph/analyses/linear_order.h:51-64 | That is so for a successor in the same loop or inside it, and for one in the loop around once the back edges are marked |
| LinearOrdering.BackEdgesDone | jit/ir/graph/analyses/linear_order.h:51-57 | Once the inner successors of a block have been tried, the back edges of its loop are marked if all loops have one possible order |
| LinearOrdering.OtherArm | jit/ir/graph/analyses/linear_order.h:51-57 | If they are marked behind the inner successors of one arm of a loop, its other arm was placed before that |
| TwoArms.WalkLine | jit/ir/graph/analyses/linear_order.h:57-57 | On a loop of one line of blocks the walk places everything and the assertion holds |
| TwoArms.WalkDiamond | jit/ir/graph/analyses/linear_order.h:57-57 | On a loop of two arms, reducible and entered from outside, the walk places everything and the assertion fails |
| LinearOrdering.CompleteIff | jit/ir/graph/analyses/linear_order.h:35-65 | The final order is complete exactly when no set of blocks keeps itself from being placed |
| LinearOrdering.NothingStuck | jit/ir/graph/analyses/linear_order.h:67-83 | Acyclic remaining edges that enter every block but the entry leave no stuck set |
| LinearOrdering.ReducibleEntered | jit/ir/graph/analyses/loop.h:159-177 | If every header dominates its loop, every header has a predecessor of another loop |
| LinearOrdering.HeaderPlaced | jit/ir/graph/analyses/linear_order.h:48-48 | The header of a placed block's loop is placed if it dominates the block |
| LinearOrdering.LifeNumbersIncrease | jit/ir/graph/analyses/linear_order.h:95-106 | Instructions have strictly increasing even numbers, each between the numbers of its block and the next |
| LivenessSpec.LiveEndStep | jit/ir/graph/analyses/liveness.h:152-172 | A value is live at the end of a block exactly when a phi behind it takes it there or it is live at the start of a successor |
| LivenessSpec.UsedAlive | jit/ir/graph/analyses/liveness.h:178-190 | In strict SSA form with single edges a value that has a user is used in its block or behind it |
| Liveness.PlacedTopological | jit/ir/graph/analyses/linear_order.h:67-83 | Without loop headers the linear order puts every block behind all its predecessors |
| Liveness.LivenessAnalysis.Remove | jit/ir/graph/analyses/liveness.h:113-118 | Succeeds exactly when the instruction is listed, and puts null in its first place |
| Liveness.LivenessAnalysis.FinalizeDef | jit/ir/graph/analyses/liveness.h:26-29 | Moves the begin of the last range, if there is one and the definition lies inside it |
| Liveness.LivenessAnalysis.InitializeBlock | jit/ir/graph/analyses/liveness.h:152-172 | The live set becomes what is live at the end of the block, each value once, and each gets the whole block as a range |
| Liveness.LivenessAnalysis.ProcessResult | jit/ir/graph/analyses/liveness.h:179-190 | The result of one instruction; its assertions hold exactly when a used result is live and an instruction without a result is not |
| Liveness.LivenessAnalysis.ProcessOperands | jit/ir/graph/analyses/liveness.h:191-196 | In front of the instruction the live set is what is used from there on or live at the end, and the ranges end at the last use |
| Liveness.LivenessAnalysis.ProcessInstructions | jit/ir/graph/analyses/liveness.h:174-201 | Succeeds exactly when the assertions hold for the block; then the set is what is live at its start and every value got its range in the block |
| Liveness.LivenessAnalysis.CalculateLifeRanges | jit/ir/graph/analyses/liveness.h:140-150 | On an acyclic strict SSA graph succeeds exactly when every block does; then all live sets and all ranges are right |
| LiveCoverage.CoveredIffNeeded | jit/ir/graph/analyses/liveness.h:152-201 | The ranges of a used value cover a life number exactly when the value is defined and a use follows, phi uses counted at the end of the predecessor |
| LiveCoverage.NeededDefined | jit/ir/graph/analyses/liveness.h:152-201 | Wherever a value is needed it has been defined on every path |
| LiveCoverage.BlocksOkIff | jit/ir/graph/analyses/liveness.h:178-200 | With single edges all assertions hold exactly when every phi has a user and no instruction without a result has one |
| LiveCoverage.RangesSorted | jit/ir/graph/analyses/liveness.h:49-77 | Read backwards the ranges are not empty, sorted and disjoint |
| LiveCoverage.Fill | jit/ir/graph/analyses/liveness.h:220-298 | Every value gets intervals with real gaps that cover what its ranges cover; for a used value, the numbers where it is needed |
| LiveOrder.FirstRange | jit/ir/graph/analyses/liveness.h:178-196 | The first range of every result begins at its life number |
| FillIntervals.Fill | jit/ir/graph/analyses/liveness.h:220-298 | With loop ranges: the merge terminates, and its intervals are sorted, have real gaps and cover exactly the union of all ranges and loop ranges |
| LiveIntervals.FindRangeCoveringOrAfter | jit/ir/graph/analyses/live_intervals.h:123-135 | The first range that ends behind the point, or a new one of length two behind the end; fails exactly in front of the start |
| LiveIntervals.SplitAt | jit/ir/graph/analyses/live_intervals.h:136-150 | A range begins at the point, the ranges stay sorted and disjoint, none in front of the point changes what it covers, and the numbers gained are exactly those of the gap the point lies in, from the point on, or the two at a point behind the end |
| SpillChoice.FurthestIff | jit/ir/graph/analyses/reg_alloc.h:125-125 | The interval chosen has the furthest next use exactly when behind the last interval without a next use there are only intervals used sooner than one in front of them |
| SpillChoice.FurthestIfUsed | jit/ir/graph/analyses/reg_alloc.h:125-125 | When every active interval has a next use, the chosen one has the furthest |
| Reloads.LostIff | jit/ir/graph/analyses/reg_alloc.h:53-78 | After all reloads of an instruction an operand is in no register exactly when the reload of another operand chose it and it is not reloaded behind that |
| Reloads.SpillsIff | jit/ir/graph/analyses/reg_alloc.h:62-77 | The reloads take no slot exactly when the active intervals and the operands in no register do not outnumber the registers |
| Reloads.NoneLost | jit/ir/graph/analyses/reg_alloc.h:62-77 | Then every operand is in a register in the end |
| SpillRuns.LoseOperand | jit/ir/graph/analyses/reg_alloc.h:62-77 | The run of a program with two registers in which the reload of one operand takes the register of the other |
| SpillRuns.SpillUsed | jit/ir/graph/analyses/reg_alloc.h:153-180 | The run of a program in which an interval that is used again is spilled instead of one that is not |
| SpillRuns.FailAtPhi | jit/ir/graph/analyses/reg_alloc.h:126-151 | The run of a program with two phis and two registers that fails at the second phi |
| RegAllocState.TakeRegister | jit/ir/graph/analyses/reg_alloc.h:69-75 | Giving an inactive interval a register that no active one has keeps even life numbers free of conflicts |
| RegAllocState.GiveRegister | jit/ir/graph/analyses/reg_alloc.h:137-149 | Spilling an active interval from just in front of the spill point does too |
| RegAllocState.FreeRegister | jit/ir/graph/analyses/reg_alloc.h:114-123 | With fewer active intervals than registers some register is free |
| RegAllocState.ActiveCount | jit/ir/graph/analyses/reg_alloc.h:36-39 | There are never more active intervals than registers |
| RegAlloc.RegAlloc.ExpireOldIntervals | jit/ir/graph/analyses/reg_alloc.h:89-112 | Exactly the intervals that end behind the point stay active; the registers of the others become free |
| RegAlloc.RegAlloc.AllocateFreeReg | jit/ir/graph/analyses/reg_alloc.h:114-123 | Finds the lowest free register and marks it busy; the end of the loop is never reached |
| RegAlloc.RegAlloc.InsertActive | jit/ir/graph/analyses/reg_alloc.h:182-189 | Inserts behind all intervals that end no later |
| RegAlloc.RegAlloc.GetUnusedIntervalToSpill | jit/ir/graph/analyses/reg_alloc.h:153-180 | Returns the last interval without further use, or whose next use is no nearer than those in front; removes exactly the expired use points of the active intervals |
| RegAlloc.RegAlloc.SpillUnusedAndActivate | jit/ir/graph/analyses/reg_alloc.h:126-151 | The chosen interval moves to the next slot and the other gets its register and its place among the active ones; nothing else changes; fails exactly when the chosen one begins at the spill point |
| RegAlloc.RegAlloc.IsActive | jit/ir/graph/analyses/reg_alloc.h:80-87 | Tells whether the interval is in a register; its assertion holds: then it is active, or ends at this number |
| RegAlloc.RegAlloc.FillInput | jit/ir/graph/analyses/reg_alloc.h:62-77 | The operand is in a register afterwards, as an active interval or one that ends at this number: at once, or in a free register from just in front of the instruction, or in that of the interval that is chosen; all lookups and splits succeed |
| RegAlloc.RegAlloc.FillInputs | jit/ir/graph/analyses/reg_alloc.h:53-78 | The operands are filled one after the other; in the end exactly those are in registers that no later reload has chosen; if the active intervals and the missing operands do not outnumber the registers, all of them are and nothing is spilled; it never fails, and phis are left alone |
| RegAlloc.RegAlloc.Visit | jit/ir/graph/analyses/reg_alloc.h:29-44 | What ends goes, the operands are filled, and the result begins in a free register or in that of the chosen interval and is active; earlier results keep their places there; fails exactly when the chosen interval is another phi of the same block, and never when the registers can take all that lives across this number |
| RegAlloc.RegAlloc.AllocateRegisters | jit/ir/graph/analyses/reg_alloc.h:22-46 | No two intervals share a register at an even life number, none share a slot, every result begins in a register, every range has a place and no covered number is lost; each slot goes to the interval chosen by its use points when all registers were taken, and no other interval is in a slot; succeeds if every block has one phi at most or registers for all that lives across its start, and not if a block has more phis than registers |
| AllocationInput.InputFits | jit/ir/graph/analyses/liveness.h:174-201 | The analysis delivers what the allocation looks up: every result has an interval that begins at its definition, and every operand's interval reaches its use |
| AllocationInput.CrossingNeeded | jit/ir/graph/analyses/reg_alloc.h:89-98 | What the allocation keeps across the start of a block is needed there or behind it |
| Backend.UsePoints | jit/ir/graph/analyses/liveness.h:300-315 | The use points are the life numbers of the users, each once, in increasing order |
| Backend.WithUsePoints | jit/ir/graph/analyses/liveness.h:300-315 | Every interval handed to the allocation has exactly the life numbers of its value's users as use points, in increasing order |
| SpillLog.NextIsFirst | jit/ir/graph/analyses/reg_alloc.h:153-180 | What is left of the use points behind a number begins with the value's next use there, read off the program |
| SpillLog.ChosenUses | jit/ir/graph/analyses/reg_alloc.h:153-180 | So a value is spilled when all registers are taken, and it is the last that has no user behind the spill point or none nearer than those of the values in front of it |
| SpillLog.SpilledLast | jit/ir/graph/analyses/reg_alloc.h:153-180 | A value in front of the one spilled with users behind the point has one no later than the next of the one spilled |
| Backend.PlacesDiffer | jit/ir/graph/analyses/reg_alloc.h:141-146 | Two values are never in the same register or slot at the same even life number |
| Backend.AllocateRegisters | jit/ir/graph/graph.cpp:220-230 | From the analysis through the allocation: where a used value is needed it has a place, and different values have different places; every slot was taken because all registers were, by the value that the users of the values in registers, as the program has them, make the last candidate; succeeds for every program the analysis accepts whose phis fit, and never otherwise if it has more phis in a block than registers or is not accepted |
| Example.Allocate | jit/ir/graph/graph.cpp:220-230 | On a small program both succeed with any number of registers |
| HeapModel.LiveUnique | allocator/gc_region.cpp:25-44 | There is one set of objects that is closed under references and reachable |
| HeapModel.RenamedLive | allocator/gc_region.cpp:10-23 | An injective renaming of the heap maps the reachable objects onto the reachable objects |
| HeapModel.ComposeRenamed | allocator/gc_region.cpp:132-136 | Renamings compose |
| HeapMark.RecordedExactly | allocator/gc_region.cpp:25-127 | After marking, the recorded slots are exactly the reachable slots that point into the region, once each |
| HeapMove.RefsStayExact | allocator/gc.h:160-170 | Moving other regions keeps the pending entries of a stage exact, once the holders are looked up again |
| HeapSizes.SurvivorsFit | allocator/gc_region.cpp:132-136 | Different objects of a region do not overlap, so that their sizes add up to at most the space the region has given out |
| HeapRebind.AllReboundRenamed | allocator/gc_region.cpp:147-155 | When every recorded slot has been fixed the heap is a renaming of the old one |
| HeapNesting.RepairedMoved | allocator/gc.h:160-170 | After the repair every pending entry of an outer stage names the current place of its slot |
| HeapNesting.RoomEnough | allocator/gc_region.cpp:132-136 | A region that has just been collected has room for the survivors of the region in front of it |
| HeapNesting.PromotedMore | allocator/gc_region.cpp:132-146 | A collection that first had to collect the next region empties all regions up to the first one whose survivors have room in the next, each into the next, and moves nothing else |
| HeapNesting.OnlyThis | allocator/gc_region.cpp:132-146 | When there is room in the next region, nothing outside the region moves, its survivors go behind the cursor of the next one, and no other cursor changes |
| Collector.Memory.constructor | allocator/region.h:34-37 | Reset regions and frames without references are a sound start |
| Collector.Memory.AppendAliveObject | allocator/gc.h:117-122 | The estimate stays the sum of the sizes of the fetched objects |
| Collector.Memory.MarkAndFetchRecursively | allocator/gc_region.cpp:46-80 | Terminates on any heap; fetches each newly marked object of the region once and records each of their slots that point into it once |
| Collector.Memory.MarkSlots | allocator/gc_region.cpp:82-127 | The same for all slots of one object |
| Collector.Memory.MarkAndFetchTargetObjects | allocator/gc_region.cpp:25-44 | Marks exactly the reachable objects; the stage holds exactly the reachable objects of the region and the slots that point there |
| Collector.Memory.AllocBytes | allocator/region.h:61-70 | Advances the cursor if the bytes fit, and fails otherwise |
| Collector.Memory.CopyTargets | allocator/gc_region.cpp:137-144 | Copies every survivor once without overlap, leaves a forwarding pointer, and advances the cursor by the sum of the sizes; never runs out of room |
| Collector.Memory.Fix | allocator/gc.h:53-73 | The forwarding pointer is there, and exactly the one slot, in the copy of its holder if there is one, points to the new place |
| Collector.Memory.RebindLinks | allocator/gc_region.cpp:147-155 | All recorded slots are fixed |
| Collector.Memory.FixInvalidDanglingReferences | allocator/gc.h:160-170 | In every stage, exactly the holders that have moved are replaced by their new places |
| Collector.Memory.MakeRoom | allocator/gc_region.cpp:130-136 | Collects nothing when the next region has room for the survivors, and otherwise that region, by the rules of a collection of its own; afterwards it has room, and every pending entry of every stage has followed its holder |
| Collector.Memory.CleanupThis | allocator/gc_region.cpp:10-23 | A completed collection, nested ones included, renames the reachable heap injectively: roots, slots, sizes and payloads correspond, no reachable slot points into the region, which is reset; the regions collected are those up to the first whose survivors have room, each object in them moves to the next region, all other objects and cursors stay, and the mark counter grows by the number of regions collected |
| Collector.Memory.Allocate | allocator/gc_region.h:31-40 | A new object that overlaps nothing reachable; when there is room no object moves and only the youngest cursor advances, and otherwise the regions up to the first whose survivors have room are collected, and no other |
| Collector.Memory.PrepareForSequentAllocations | allocator/gc_region.cpp:157-165 | Afterwards more than the bytes asked for are free and the trigger is forbidden; when they were free nothing has changed, and otherwise exactly the regions up to the first whose survivors have room were collected |
| Collector.Memory.Construct | interpreter/types/object.h:16-28 | No collection happens; the members are reset and the last ones are the new functions; the cursor advances by the object and its functions |
| Collector.Memory.NewObject | interpreter/types/object.h:65-81 | With any number of methods: succeeds without a collection if there is room, and with one of exactly the regions up to the first whose survivors have room, if the tenured region has room for its own |

## Left out

- Collector.Memory.MarkAndFetchTargetObjects: the frames are one list of registers, since nothing depends on where one frame ends.
- Collector.Memory.MarkSlots: arrays, objects and functions are one kind of object with a list of slots; `MarkArray`, `MarkObject` and `MarkFunction` differ only in which slots there are.
- Collector.Memory.NewObject: the map from names to members is not modelled, nor a thread other than the interpreter.
- Collector.Memory.CleanupThis: when a forbidden trigger or a full tenured region aborts the program nothing is promised; `TenuredRoom` says when the latter cannot happen.
- The mark counter is unbounded, addresses are abstract, and alignment, memory mapping, logging and timing are not part of this model.
- The region for the collector's own vectors is not part of this model; the stages are sequences.
- Peepholes.Pass.Run: runs are kept as long as no pair of shifts by 32 on UINT64 is replaced, because `UnsignedShift.RunsDiffer` shows that such a pair changes them.
- Peepholes.Pass.VisitAshr: a constant shift by 64, which the source leaves undefined, counts as a crash.
- Floating-point instructions have no executor.
- InstructionGraph.InstGraph.SetInput: when it fails nothing is promised about the chains.
- InstructionGraph.InstGraph.Dominates: both instructions are in the lists of their blocks, not phis.
- InstructionGraph.InstGraph.constructor: phis are given at the start, since `PushPhi` links a phi to the last instruction instead of the last phi.
- LinearOrdering.LinearOrder.DFS: the walk goes on where the assertion at linear_order.h:57 fails, as it does with assertions compiled out; a field records it. Loops with neither one possible order nor two arms, whose blocks have several orders only in part, are between the two conditions. The assertion at linear_order.h:48 is proved for headers that dominate their loop; what the source asks instead, that the loop is reducible, is a result of the loop analysis.
- The loop analysis is an input (`Loops`), because its own assertions limit it to certain graphs.
- Liveness.LivenessAnalysis.CalculateLifeRanges: on acyclic graphs; `ProcessLoop` stops at the first block of an inner loop and is not part of this model.
- Liveness.LivenessAnalysis.InitializeBlock: phi operands are looked up by the first edge from the predecessor, as in the source; the exactness of the failure condition assumes single edges.
- LiveCoverage.Fill: without loop ranges, since `ProcessLoop` is not part of this model; `FillIntervals.Fill` has them.
- FillIntervals.Fill: the assertions at liveness.h:244 and liveness.h:287 are not modelled; the loop that skips nested loop ranges never runs, since the range it looks at is still the current one.
- LiveCoverage.RangesSorted: the assertions of `CheckRanges` about loop ranges are not modelled.
- RegAlloc.RegAlloc.AllocateRegisters: before `MergePhis`; life numbers that are odd are not covered, because a reload may begin in a register that another operand leaves there. With several phis in a block and some values to be spilled, success depends on which interval each choice falls, as `Visit` says for each of them.
- RegAlloc.RegAlloc.FillInputs: a later operand may take the register of an earlier one (`SpillRuns.LoseOperand`), so that not all operands need be in registers at once when something is spilled.
- SpillRuns.LoseOperand: the intervals of the programs of `SpillRuns` are written down as the analysis makes them, not computed; what is run are the visits of the allocation.
- RegAlloc.RegAlloc.SpillUnusedAndActivate: slots are unlimited; `busy_slots_` is never read and left out. Intervals are values, with the entry of `locations_` in each range, where the source changes list nodes in place.
- RegAlloc.RegAlloc.GetUnusedIntervalToSpill: that the furthest use is spilled is false; it holds exactly under the condition of `SpillChoice.FurthestIff`.
- Inlining, the interpreter, its instruction set, the assembler, class files and all dump functions would add only easier members, or depend on stubs.
