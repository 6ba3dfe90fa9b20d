# Slimmer, modelled and proved

Slimmer records what a program executes and reports the executions nothing
visible depends on. This project models its two halves in Dafny: the runtime that
records a trace (a ring of buffers shared by three threads, event layouts, block
framing) and the offline analyser `print-bug`, which rebuilds the executed blocks
from the sparse events, groups memory into objects, finds for every read the last
writer, computes post-dominators and slices backward.

Stages whose source updates state in place are classes or methods with loops
(`SegmentTree`, `Merger`, `AddressIndex`, `VariableIndex`, `Pass`,
`PostDominators`, `Slicer`, `Printer`, `TraceBuffer`, `TraceIter`, the array loops
of base64). Each is proved equal to a function on values, and what the stage is for
is proved about that function. The ring, whose threads interleave, is a step
system; the instrumented program is an abstract machine that emits events.

| file | what it holds |
|---|---|
| `Common`, `Executions`, `Events` | programs, blocks, events, executions and their numbers |
| `SegmentTree` | the range-assignment tree |
| `Merge`, `MergeTrace`, `StaleFrames` | the merger as a function and in place; what its undefined read cannot change |
| `Machine`, `Replay`, `Simulation`, `Recording`, `Framing`, `Records` | the recorded machine; merging undoes recording; frames nest; what each event says of bytes and arguments |
| `Grouping`, `ArgumentPassing`, `Pointers` | memory grouping as a function; what passing arguments merges and when it fails; addresses that pointers lead to |
| `GroupTrees`, `AddressIndex`, `GroupMemory` | tree merging, the indexes, the grouping pass in place |
| `MemoryDependency`, `Atomics`, `PassedCalls`, `ByteMemory`, `Numbering` | last writers byte by byte, as the pass sees them and as they truly are; a memory with values that depends on them; both numberings of executions |
| `PostDominator` | the fixpoint over the block graph |
| `Slice`, `SliceSound`, `Flags`, `Terminators`, `Reasons`, `Returns`, `Terms`, `Slicer` | one step of the slice as a function; what it keeps invariant; what the stacks hold; why an execution, and a return, is kept; what uses and executions are; the scan in place |
| `Soundness`, `Frames` | what a kept execution keeps; what it was truly made with, in its frame |
| `LateKept`, `RunEnds`, `Flow`, `Visits`, `LateInputs` | what is kept late: what is reported all the same, which terminators, which inputs of phi nodes |
| `Runs`, `Losses`, `GroupingRuns`, `AtomicRuns`, `PassedRuns`, `RecursionRuns`, `LateRuns`, `BugRuns` | recorded runs of small programs, from the events on, on which a pass goes wrong |
| `Addresses`, `Components`, `TrueBugs` | unneeded accesses by address; bugs as what is connected; when that is what belongs together |
| `Ring`, `Codec`, `TraceFile`, `Layout`, `Base64` | recording: threads, events, files, bytes one by one, strings |
| `Pipeline` | all passes one after the other |

## What holds

*The slice.* An execution was made with the operands last computed in its frame, the
last writers of the bytes it reads, the call of its function, the return behind a call
whose value it uses, and a branch straight to its block where control need not have
come. Nothing that an impactful call was made with, however indirectly, is reported, on
every trace on which no atomic access and no call that is passed over stands between a
byte and who reads it, no deeper frame computes again what is still to be used, and no
frame begins with a call that is passed over, and with every block graph of which no
exit is disturbed; each of these is explained below. On all traces it holds of the
executions that the scan looks at and the links it can tell: it takes the operand last
computed in the thread, the writers that the dependency pass extracts, and the blocks
that the fixpoint leaves as post-dominators.

An execution is kept if and only if it is asked for by something kept after it (a use of
its value before the thread computes it again, a byte it wrote as far as has been
extracted, a branch to a used block that is not found to post-dominate it, a return that
is needed, a call of a used function), or by something that, before the scan came to it,
was kept late because a block had turned out to be used. What is kept late is the first
terminator of each used run of a basic block, and whatever something kept before asks
for when a walk back through the block comes to it. An execution is reported if and only
if it is neither kept, nor kept late, nor the terminator of a block with one successor.

*The bugs.* Each bug is all that is connected with an unneeded instruction, through what
the report looks up for unneeded executions or through accesses recorded under one
address. Bugs are disjoint, and every unneeded instruction is in one. What is looked up
is what was used, if and only if every operand of an unneeded execution is executed as
often afterwards as its user, unless neither what is looked up nor what was used is
unneeded, and no unneeded phi node has taken an unneeded value. Then each bug is all that
truly belongs together.

*The trace.* For every interleaving of threads the merger accepts what was
recorded, and the blocks of each thread tell, in order and without gap or overlap,
exactly what the thread did. Of any events, each load, store, set, move, declaration and
outside call is one block, in the order recorded, with exactly the bytes or the arguments
that its event tells. The stack marks of the blocks nest, so the slicer never looks at an
empty stack.

*Memory.* The two pairs of group indexes stay inverse, groups only grow together,
and every accessed range ends up in one group. So do any two addresses that one pointer
leads to, accessed through it or through what was computed from it, here or in the
functions it was passed to; outside first blocks of functions no step puts together
anything else. In a memory of bytes with values, what a block takes depends on an earlier
block if and only if that has been extracted, as the pass takes reading and writing;
`Atomics.ExtractedTruly` and `PassedCalls.SeenExactly` say exactly when that is right.

*Recording.* Under every interleaving no buffer is overwritten before the next
stage has consumed it, the file is a prefix of the blocks handed over, in order
and once each, and the three threads cannot all wait before the shutdown. Reading a
recorded file back gives the recorded events, whatever has been appended to it. Events,
frames and base64 strings are also told byte by byte and bit by bit.

## Where the code departs from what one would expect

- Padding (`Recording.PadKeeps`, `PaddedTooEarly`): a placeholder or end event
  makes the merger drain the last thread. This is harmless exactly if that thread
  is at rest, not parked between a call and its callee.
- Bugs (`Components.PrintBug`, `Addresses.ScannedRecords`): an access that was passed
  as unneeded stays recorded under its address when it is kept late after all. A bug
  holds unneeded instructions only, if and only if no such access shares an address with
  an unneeded one. On the run of `LateRuns.KeptLateWrongly` a load that is kept late is
  printed in the bug of the store it depends on.
- Late keeping (`LateKept.LateDependency`, `LateOperand`, `TrueOperand`): what is kept late
  asks for executions that the scan has not come to, and those it gets. Of the ones that
  have been passed it keeps what it asks for and the walk through its block takes: for each
  instruction of the block, counted from where the scan stands, the execution of the same
  number as the terminator (`MemberIs`). Whatever else had been dropped is reported, unless
  another walk takes it; so is the store of `KeptLateWrongly`.
- Phi nodes kept late (`LateInputs.LateInput`): a walk made where a block has just been
  left chooses inputs by `LastBBID` of the block before (tools/PrintBug/PrintBug.cpp:229,
  180, 190), which is where control came from one step earlier. For the executions of the
  walked run this is right if and only if the two numbers coincide; a walk made at the
  first block of a frame always chooses right. Of executions that a walk takes from another
  run, `AnyInput` says when. On the run of `KeptLateWrongly` the input that the phi node
  took is reported.
- Terminators (`RunEnds.UsedEndKept`, `EndReported`, `LaterRounds`): of a used run of a
  basic block the first terminator is kept. The rounds of a loop of a single block are one
  run to the scan, so that no later round's terminator is kept for the sake of its block.
- Grouping (`Grouping.GroupBlockKeeps`, `ArgumentPassing.GroupBlockFails`,
  `GroupingRuns.DeletedGroupUsed`): an empty declaration and an effective move from an
  empty range index an empty list. At the first block of a function, passing fails if and
  only if the group of some variable comes by an argument for which the caller has no
  operand; and an access with bytes to claim fails if and only if passing joins its
  group with a smaller one. Which groups are joined is told by where each variable
  ends up, which can be read off the operands of the call.
- Arguments of caller and callee share their numbers (`ArgumentPassing.MergesDirectlyExactly`,
  `GroupingRuns.SwappedArgumentsMeet`). Passing merges no more than each argument's group
  with that of the caller's variable, whatever the groups are, if and only if an argument
  still to be passed, when it is what an earlier one stands for, stands for itself. A
  call with swapped arguments is not like that, and merges unrelated memory.
- Post-dominators (`PostDominator.StrictInevitable`, `LoopHidesPostDom`,
  `SmallExitMisleads`, `SettledExactly`): what the fixpoint always contains are the
  blocks that no walk can get past for good. A strict post-dominator of a block from
  which an exit can be reached is among them if and only if an exit can still be reached
  wherever a walk that avoids it has got to; an endless loop beside it hides it. The
  comparison value left over from another block makes the result too large if and only
  if a block that leads to an exit is left with anything but that exit. This cannot happen
  if every exit comes after the blocks that lead to it; nor if, where one does not, such a
  block and the last inner block before the exit can both reach nothing but the exit
  (`Undisturbed`), as when the exit comes before all inner blocks (`LateOrFirst`).
- Shutdown of the ring (`Ring.ClosesComplete`, `ClosesIncomplete`, `ShutdownLeaves`,
  `ShutdownHangs`, `CompressorHangs`): the file is complete if and only if both workers
  had caught up when the last block was handed over. Otherwise a block is lost; and
  the dumper waits for ever if and only if it still has to pass more blocks than the
  compressor will, the compressor if and only if it still has to pass more
  than the dumper will and all the slots besides.
- Calls passed over (`PassedCalls.SeenExactly`, `NothingHidden`): the slicer passes over
  calls of `free`, `va_start` and `va_end`, but to the dependency pass they read and write
  all of the groups they are given, and so hide what was written before. Between the other
  blocks the pass sees the true dependences if and only if no atomic access is on either
  side of one, and no passed call hides what was written from a block that reads it at no
  other byte. On the run of `PassedRuns.FreedLost` a store is reported although `write` is
  passed what was loaded from it. On that of `OpensLost` the call of a function that begins
  with a call of `free` is reported, although the function calls `write`: the scan passes
  over the block that names the caller.
- Recursion (`Frames.OperandExactly`, `OperandsExactly`): the scan asks for the last
  execution of an operand in the thread. That is the one in the frame if and only if no
  deeper frame has executed the instruction in between, as none does if no function is
  entered while a frame of it is open (`WithoutRecursion`). On the run of
  `RecursionRuns.AgainLost` the operand of an impactful call is reported.
- Links of a bug (`TrueBugs.LookupExactly`, `LinksExactly`): for an operand the report looks
  up the execution of the same number as its user's, counted from the end. That is the one
  that was used (the last in the thread) if and only if both are executed equally often
  afterwards. And it knows no phi inputs. On the run of `BugRuns.RoundLost` a value and the value computed from it,
  both unneeded, are told apart.
- Atomic instructions (`Atomics.DependsTruly`, `ExtractedTruly`): the dependency pass takes
  them neither to read nor to write, since their case
  (tools/PrintBug/ExtractMemoryDependency.cpp:36) lies under the test for loads (line 28).
  What it extracts is what it should if and only if no atomic access reads a byte written
  before, and none is read that an atomic access was last to write. Every atomic access
  whose value is not used is reported (`AtomicRuns.AtomicReported`); `AtomicLost` is a run
  on which `write` is passed what has been loaded from such an access.
- An external call depends on itself exactly if two of its arguments lie in one
  group (`Pipeline.SelfEdgeExactly`).

## Model

| member | source | states |
|---|---|---|
| SegmentTrees.Mid | include/SegmentTree.hpp:72-74 | the midpoint computed without overflow is the floor of (left + right) / 2 for all 64-bit bounds |
| SegmentTrees.SetTreeUpdates | include/SegmentTree.hpp:52-103 | Set is map update on [l, r), splits no range of width one |
| SegmentTrees.SetTreeCanonical | include/SegmentTree.hpp:90-102 | Set keeps the tree free of nodes whose children agree |
| SegmentTrees.CanonicalUnique | include/SegmentTree.hpp:76-102 | two such trees that stand for the same map have the same shape, so the shape does not depend on the updates made |
| SegmentTrees.SetAllocates | include/SegmentTree.hpp:76-82 | Set allocates at most four nodes on a level, on at most 64 levels |
| SegmentTrees.SegmentTree.Set | include/SegmentTree.hpp:52-103 | in place: every address of [l, r) gets v, all others keep their value; shape and allocations are those of the function |
| SegmentTrees.SegmentTree.MergeChildren | include/SegmentTree.hpp:90-102 | a node whose children agree becomes a leaf again |
| SegmentTrees.SegmentTree.Get | include/SegmentTree.hpp:109-124 | the value at x, or none if x is not covered |
| SegmentTrees.CollectEncodes | include/SegmentTree.hpp:136-165 | the collected runs are contiguous, ordered, each constant, adjacent ones differ, and every run meets [l, r) |
| SegmentTrees.SegmentTree.Collect | include/SegmentTree.hpp:128-132 | Collect returns these runs for the tree's map |
| SegmentTrees.SegmentTree.Collect2 | include/SegmentTree.hpp:136-165 | appends the runs of one subtree, joining the first to the last run already there if they agree |
| MergeTrace.Merger.DrainThread | tools/PrintBug/MergeTrace.cpp:200-262 | the drain loop terminates and appends what the drain function says |
| MergeTrace.Merger.StartBlock | tools/PrintBug/MergeTrace.cpp:94-111 | a basic block event starts a thread, a called function or the next block of a function |
| MergeTrace.Merger.PassInstruction | tools/PrintBug/MergeTrace.cpp:123-137 | an access event must be for the next instruction of the top frame, and becomes one block |
| MergeTrace.Merger.CallReturns | tools/PrintBug/MergeTrace.cpp:139-163 | a return event becomes an external or impactful call with the collected arguments in order |
| MergeTrace.Merger.ProcessEvent | tools/PrintBug/MergeTrace.cpp:48-263 | in place: one event changes the state as the merge function does, of which `Records.AccessOrder` and `Recording.MergeInverts` say what it writes; or it is not accepted |
| MergeTrace.Merger.CloseAll | tools/PrintBug/MergeTrace.cpp:265-291 | the closing loop ends every open frame, threads in order |
| MergeTrace.Merger.Merge | tools/PrintBug/MergeTrace.cpp:30-292 | the whole pass computes BlockTrace, or refuses exactly when that is undefined |
| Replay.DrainTells | tools/PrintBug/MergeTrace.cpp:200-262 | draining tells exactly what the thread can do before its next event, return by return |
| Simulation.SimPass | tools/PrintBug/MergeTrace.cpp:123-137 | passing an access keeps the blocks written in step with what the thread executed |
| Simulation.SimEnterBB | tools/PrintBug/MergeTrace.cpp:94-111 | the same for entering a block |
| Recording.MergeFollows | tools/PrintBug/MergeTrace.cpp:48-263 | for every run of every number of threads the merger accepts the events and stays in step with each thread |
| Recording.MergeReplays | tools/PrintBug/MergeTrace.cpp:48-263 | the blocks of a thread that waits for its next event tell exactly what it executed |
| Recording.MergeInverts | tools/PrintBug/MergeTrace.cpp:30-292 | merging undoes recording, including the frames still open at the end; with what bytes and arguments, `Records.LogTold` says |
| Recording.ClosingTells | tools/PrintBug/MergeTrace.cpp:265-291 | closing a thread tells that its frames return, from the innermost out |
| Recording.PadKeeps | tools/PrintBug/MergeTrace.cpp:200-262 | a placeholder or end event keeps the merger in step if and only if the last thread is at rest |
| Recording.PaddedTooEarly | tools/PrintBug/MergeTrace.cpp:200-221 | a placeholder between call and callee gives a wrong trace |
| StaleFrames.StaleHarmless | tools/PrintBug/MergeTrace.cpp:265-291 | whatever `LastBBID` the closing blocks are given, the groups, the dependencies and the scan with its report are the same |
| Framing.DrainMoves | tools/PrintBug/MergeTrace.cpp:224-261 | the blocks of a drain close as many frames as it pops |
| Framing.BlockTraceNested | tools/PrintBug/MergeTrace.cpp:94-111 | the first and last marks of each thread nest like brackets |
| Framing.DepthLevel | tools/PrintBug/PrintBug.cpp:218-236 | the height of the slicer's stacks is the nesting level plus the frames whose first block it passes over |
| Framing.BlockTraceFit | tools/PrintBug/PrintBug.cpp:218-351 | every merged trace meets what the later passes demand; in particular no top() or pop() of the slicer finds an empty stack |
| Framing.StacksBalance | tools/PrintBug/PrintBug.cpp:327-351 | the stacks end empty exactly if every frame wrote a first block that is not passed over |
| Records.AccessOrder | tools/PrintBug/MergeTrace.cpp:78-198 | for all events: one block for each load, store, set, move, outside call and declaration, in the order recorded, for its thread and instruction, covering byte x if and only if addr <= x < addr + length where 64 bits suffice, of a move the same at the source; a call with the arguments passed since the last return, ascending |
| Records.LogTold | lib/SlimmerRuntime/SlimmerRuntime.cpp:318-482 | for every run, what a thread did to memory and which outside calls it made is what its events tell, one by one, with the same bytes and arguments |
| Machine.WayOn | tools/PrintBug/MergeTrace.cpp:207-222 | a thread can always go on; whether its step leaves an event depends on the instruction alone: accesses, outside calls and calls of intrinsics do |
| Grouping.MergeMerges | tools/PrintBug/GroupMemory.cpp:66-103 | merging groups relabels exactly their addresses and variables and deletes the others |
| Grouping.PassArgumentsKeeps | tools/PrintBug/GroupMemory.cpp:163-200 | passing arguments splits no group and keeps every label live |
| Grouping.MergeInstKeeps | tools/PrintBug/GroupMemory.cpp:118-202 | after merging an instruction the addresses of the given groups share the group that is returned, if it still exists, and no group is split |
| Pointers.OperandsMerged | tools/PrintBug/GroupMemory.cpp:123-160 | for every view: all addresses in the given groups, in that of the result variable and in those of the pointer operands become one group, and no others move; the result has no group afterwards, each pointer operand has that one |
| Pointers.OperandsLabelled | tools/PrintBug/GroupMemory.cpp:154-157 | the pointer arguments among the operands are labelled, and no others |
| Pointers.MergeInstLinks | tools/PrintBug/GroupMemory.cpp:118-202 | arguments passed included: all that the instruction touches shares a group; through an operand, or what the caller has in its place, one gets to all of it, and through any other variable to where one got before |
| Pointers.PassedLinks | tools/PrintBug/GroupMemory.cpp:162-200 | after passing, the variable that the caller has in an argument's place leads to where the argument led |
| Pointers.StepDraws | tools/PrintBug/GroupMemory.cpp:219-292 | outside first blocks of functions, addresses come together if and only if both are accessed, share a group with what is, or are what the result or a pointer operand leads to |
| Pointers.QuietDraws | tools/PrintBug/GroupMemory.cpp:255-281 | a declaration puts together its range and what shares a group with it; an outside call puts nothing together, and gives each argument without one a group |
| Pointers.PointersGroup | tools/PrintBug/GroupMemory.cpp:205-293 | for every trace and point: two addresses to which one pointer leads, accessed through it or through pointers computed from it at any depth, in called functions too, are in one group at the end |
| Grouping.GroupRangeKeeps | tools/PrintBug/GroupMemory.cpp:222-254 | an accessed range lies in one group afterwards |
| Grouping.GroupMoveKeeps | tools/PrintBug/GroupMemory.cpp:239-254 | both ranges of a move lie in one group afterwards |
| Grouping.GroupBlockKeeps | tools/PrintBug/GroupMemory.cpp:217-293 | every block leaves its addresses grouped and splits no group; outside first blocks of called functions it fails exactly on empty declarations and on moves from empty ranges, elsewhere as `ArgumentPassing.GroupBlockFails` says |
| Grouping.GroupTraceGroups | tools/PrintBug/GroupMemory.cpp:212-293 | at the end every accessed or declared range, and both ranges of a move together, lie in one live group |
| ArgumentPassing.PassedGroups | tools/PrintBug/GroupMemory.cpp:162-200 | passing all arguments: each group becomes the least of those joined with it, in addresses and variables, where variables that end up in one place join their groups; it fails if and only if some group comes by an argument without operand |
| ArgumentPassing.JoinedStep | tools/PrintBug/GroupMemory.cpp:186-192 | merging the two groups of one argument leaves which groups are joined as it was |
| ArgumentPassing.LosesOnly | tools/PrintBug/GroupMemory.cpp:175 | a caller with an operand for every labelled argument loses none, and it loses each labelled argument with a group that has none |
| ArgumentPassing.MergeInstExactly | tools/PrintBug/GroupMemory.cpp:118-202 | the group returned is live if and only if no smaller group was joined with it before passing |
| ArgumentPassing.GroupBlockFails | tools/PrintBug/GroupMemory.cpp:217-293 | a block fails if and only if it is rejected, an argument has no operand, or it has bytes to give to a group that passing deletes |
| ArgumentPassing.GroupTraceFails | tools/PrintBug/GroupMemory.cpp:212-293 | the same for whole traces, called functions included |
| ArgumentPassing.MergesDirectlyExactly | tools/PrintBug/GroupMemory.cpp:167-200 | for all groups, passing merges only each argument's group with that of the caller's variable, if and only if the operands are orderly |
| GroupingRuns.DeletedGroupUsed | tools/PrintBug/GroupMemory.cpp:249-254 | a well-formed program and the events of a run, merged and grouped, on which a deleted group is used |
| GroupingRuns.SwappedArgumentsMeet | tools/PrintBug/GroupMemory.cpp:167-195 | a well-formed program and the events of a run on which a call with swapped arguments puts two unrelated addresses into one group |
| GroupTrees.MergeTrees | tools/PrintBug/GroupMemory.cpp:39-59 | merging aligned trees gives a new tree covering exactly their union, relabels exactly the union, and shares no node with the old trees |
| GroupTrees.Children | tools/PrintBug/GroupMemory.cpp:41-50 | the children of partial roots, unless some root is covered |
| AddressIndexes.AddressIndex.CollectClipped | tools/PrintBug/GroupMemory.cpp:22-29 | with its ends clipped, the collected list partitions [l, r) |
| AddressIndexes.AddressIndex.Survey | tools/PrintBug/GroupMemory.cpp:231-238 | the groups met in [l, r), and gaps that are exactly the addresses without one |
| AddressIndexes.AddressIndex.Claim | tools/PrintBug/GroupMemory.cpp:251-254 | giving a range to a group updates both indexes and keeps them inverse |
| AddressIndexes.AddressIndex.Absorb | tools/PrintBug/GroupMemory.cpp:79-94 | merging groups moves exactly their addresses to the first and keeps the indexes inverse, their trees apart |
| AddressIndexes.AbsorbInverse | tools/PrintBug/GroupMemory.cpp:79-94 | relabelling and union together keep the indexes inverse |
| GroupMemory.VariableIndex.Forget | tools/PrintBug/GroupMemory.cpp:143-147 | a variable loses its group in both indexes |
| GroupMemory.VariableIndex.MoveAll | tools/PrintBug/GroupMemory.cpp:96-99 | the variables of merged groups move in both indexes |
| GroupMemory.MoveInverse | tools/PrintBug/GroupMemory.cpp:96-99 | moving one group's variables keeps the indexes inverse |
| GroupMemory.Pass.Merge | tools/PrintBug/GroupMemory.cpp:66-103 | the new state is the one Grouping.Merge describes, indexes valid |
| GroupMemory.Pass.MergeInst | tools/PrintBug/GroupMemory.cpp:118-202 | the new state is the one Grouping.MergeInst describes, of which `Pointers.MergeInstLinks` says what it puts together |
| GroupMemory.Pass.GroupBlock | tools/PrintBug/GroupMemory.cpp:217-293 | the same for one block, in each of its kinds |
| GroupMemory.Pass.GroupMemory | tools/PrintBug/GroupMemory.cpp:212-293 | the whole pass computes GroupTrace, or fails exactly when that is undefined |
| MemoryDependency.DynInjective | tools/PrintBug/ExtractMemoryDependency.cpp:18-20 | different accesses get different numbers |
| MemoryDependency.AccessGroup | tools/PrintBug/ExtractMemoryDependency.cpp:79-89 | a call reads, then overwrites, the whole group of an argument |
| MemoryDependency.AccessMemory | tools/PrintBug/ExtractMemoryDependency.cpp:17-91 | in place: one block collects the last writers of what it reads and updates the last writers of what it writes, both as `ByteMemory.MattersExactly` shows them to matter; an atomic access does neither, as in the code |
| MemoryDependency.DependsAsShadow | tools/PrintBug/ExtractMemoryDependency.cpp:16-92 | depending on a block is finding it in the shadow memory at a byte that is read, or a call's own second look at a group |
| MemoryDependency.CollectDependencies | tools/PrintBug/ExtractMemoryDependency.cpp:16-92 | for every prefix of the trace the collected sets are exactly the last writers |
| MemoryDependency.ExtractMemoryDependency | tools/PrintBug/ExtractMemoryDependency.cpp:9-104 | after renumbering, each access depends exactly on the last writers of the bytes it reads, as the pass takes reading and writing |
| ByteMemory.DependencesSettle | tools/PrintBug/ExtractMemoryDependency.cpp:28-90 | in a memory of bytes with values, for every prefix: a load, move or call takes the same in any two runs that agree on what its dependencies wrote and on the bytes nobody wrote |
| ByteMemory.DependenceNeeded | tools/PrintBug/ExtractMemoryDependency.cpp:28-90 | for each dependency there are two runs that differ in nothing but what it wrote, and in which the block takes different values |
| ByteMemory.ExtractedMatters | tools/PrintBug/ExtractMemoryDependency.cpp:9-104 | an earlier block is extracted for a block if and only if what the block takes depends on what it wrote, as the pass sees memory |
| ByteMemory.MattersExactly | tools/PrintBug/ExtractMemoryDependency.cpp:28-90 | the same of the dependences as the pass sees them and of the true ones, where atomic accesses read and write and passed calls do neither |
| ByteMemory.ExtractedTrulyMatters | tools/PrintBug/ExtractMemoryDependency.cpp:9-104 | where atomic accesses and passed calls make no difference, it is extracted if and only if it truly depends on it |
| Atomics.DependsTruly | tools/PrintBug/ExtractMemoryDependency.cpp:28-40 | the dependences the pass sees are the true ones, atomic accesses included, if and only if no atomic access reads a byte written before and no byte is read that one was last to write |
| Atomics.ExtractedTruly | tools/PrintBug/ExtractMemoryDependency.cpp:28-104 | the same of the dependences the pass leaves, by number |
| Atomics.WithoutAtomics | tools/PrintBug/ExtractMemoryDependency.cpp:28-104 | in particular they are the true ones if no atomic access touches a byte |
| AtomicRuns.AtomicReported | tools/PrintBug/ExtractMemoryDependency.cpp:28-40 | on every trace, every atomic access whose value nothing uses is reported, whatever reads what it wrote |
| AtomicRuns.AtomicLost | tools/PrintBug/ExtractMemoryDependency.cpp:28-40 | a well-formed program and the events of a run on which an impactful call truly depends, through a load, on an atomic access that is reported |
| Pipeline.DependsEarlier | tools/PrintBug/ExtractMemoryDependency.cpp:75-89 | dependencies point strictly back, but for a call's edge to itself |
| Pipeline.SelfEdgeExactly | tools/PrintBug/ExtractMemoryDependency.cpp:75-89 | that edge exists if and only if two arguments lie in one group |
| Numbering.CountsAgree | tools/PrintBug/ExtractMemoryDependency.cpp:94-102 | counting backward and counting forward from the end agree, up to the calls the slicer passes over |
| Numbering.NumberingAgrees | tools/PrintBug/PrintBug.cpp:261-263 | both passes give one access the same number, less the later calls passed over |
| PostDominator.ReadMeans | tools/PrintBug/PrintBug.cpp:68-72 | for all edges: b is read as a successor of a if and only if the edge from a to b is in the list |
| PostDominator.InevitableIsStrict | tools/PrintBug/PrintBug.cpp:56-60 | where everything can end, what the fixpoint is to find are the strict post-dominators |
| PostDominator.StrictInevitable | tools/PrintBug/PrintBug.cpp:56-60 | if an exit can be reached from a block, its strict post-dominator is inevitable if and only if an exit can be reached from the end of every walk that avoids it |
| PostDominator.LoopHidesPostDom | tools/PrintBug/PrintBug.cpp:78-99 | a graph with an endless loop on which a strict post-dominator is in no result the pass may leave |
| PostDominator.SettledExact | tools/PrintBug/PrintBug.cpp:78-99 | settled sets are exact where blocks that lead to an exit hold at most that exit |
| PostDominator.LateOrFirst | tools/PrintBug/PrintBug.cpp:78-97 | no exit is disturbed if each comes after the blocks that lead to it, or before all inner blocks |
| PostDominator.SettledExactly | tools/PrintBug/PrintBug.cpp:78-99 | on every graph, settled sets are exact if and only if that is so |
| PostDominator.PassProgress | tools/PrintBug/PrintBug.cpp:78-99 | every round of the loop that reports a change makes the sets smaller or settles a left-over size, so the loop ends |
| PostDominator.SmallExitMisleads | tools/PrintBug/PrintBug.cpp:83-97 | on a graph with a disturbed exit the stale comparison value leaves a wrong set |
| PostDominator.PostDominators.Search | tools/PrintBug/PrintBug.cpp:38-46 | the search marks exactly what can be reached without entering what is marked, and ends |
| PostDominator.PostDominators.SetIntersection | tools/PrintBug/PrintBug.cpp:48-55 | removes from the first set what the second lacks |
| PostDominator.PostDominators.Pass | tools/PrintBug/PrintBug.cpp:82-98 | one round over the blocks in order, with the value left over from block to block |
| PostDominator.PostDominators.Settle | tools/PrintBug/PrintBug.cpp:78-99 | the loop terminates in a state that another round does not change |
| PostDominator.PostDominators.PreparePostDominator | tools/PrintBug/PrintBug.cpp:63-100 | of each block from which an edge leads on, contains every block that no walk over the listed edges gets past for good; exact if no exit is disturbed |
| Slicer.Slicer.OneInstruction | tools/PrintBug/PrintBug.cpp:115-158 | pending keys and dependencies lose the instruction and gain exactly its operands, its chosen phi input and its memory dependencies |
| Slicer.Slicer.FirstInput | tools/PrintBug/PrintBug.cpp:144-157 | the first phi entry for the block control came from |
| Slicer.Slicer.IsReturnVoid | tools/PrintBug/PrintBug.cpp:165-170 | for all code: if and only if for some n only white space stands before n, none at n, and "ret void" from n on |
| Returns.ValueReturnKept | tools/PrintBug/PrintBug.cpp:298-305 | on every trace, a return whose code goes on with anything but "v" after "ret " is kept if and only if it ends a thread, or it or the call it returns to is asked for |
| Returns.VoidReturnKept | tools/PrintBug/PrintBug.cpp:299-300 | a return of nothing is kept |
| Terms.UsesMeans | tools/PrintBug/PrintBug.cpp:124-149 | an instruction uses the instructions in its operand list, and the one in the first entry of a phi node for the block that control came from |
| Terms.ExecsAre | tools/PrintBug/PrintBug.cpp:238-311 | a trace stands for one execution of each instruction of each part of a basic block, in order, one for each access and call, and none for declarations and calls of `free`, `va_start`, `va_end` |
| Slicer.Slicer.OneBlock | tools/PrintBug/PrintBug.cpp:173-194 | keeping a terminator late keeps what it needs inside its block and leaves the rest pending |
| Slicer.Slicer.IsNeeded | tools/PrintBug/PrintBug.cpp:279-305 | in place: an instruction of a normal block is needed exactly if its key waits, control depends on it, or it is a return that `Returns.ValueReturnKept` says to be kept |
| Slicer.Slicer.EnterBlock | tools/PrintBug/PrintBug.cpp:218-236 | opens a frame, or keeps the terminator of the block that has just ended |
| Slicer.Slicer.LeaveBlock | tools/PrintBug/PrintBug.cpp:327-351 | notes use, asks for the caller, keeps the terminator, pops the frame |
| Slicer.Slicer.ProcessBlock | tools/PrintBug/PrintBug.cpp:212-352 | one round of the scan, for every kind of block |
| Slicer.Slicer.ExtractUneededOperation | tools/PrintBug/PrintBug.cpp:202-353 | the scan in place computes Scanned; its report is sound and is exactly what is to be reported |
| SliceSound.AccountedInv | tools/PrintBug/PrintBug.cpp:264-279 | each dependency of a kept execution is kept already or pending, before and after every execution |
| SliceSound.BlockKeptInv | tools/PrintBug/PrintBug.cpp:173-194 | keeping a block late consumes no pending entry, and what it keeps has its needs met or pending |
| SliceSound.ScannedStable | tools/PrintBug/PrintBug.cpp:212-352 | the invariant holds at every block of every trace |
| SliceSound.ScannedPartition | tools/PrintBug/PrintBug.cpp:202-353 | each execution is reported if and only if it is not kept, not kept late and not an exempt terminator; impactful calls are kept |
| Flags.EnteredMeant | tools/PrintBug/PrintBug.cpp:218-236 | opening a frame keeps the meaning of all flags |
| Flags.NotedMeant | tools/PrintBug/PrintBug.cpp:327-331 | noting a block keeps the meaning of all flags |
| Flags.ScannedMeant | tools/PrintBug/PrintBug.cpp:212-352 | always: a function is marked used if and only if an execution of its frame is kept, a block if and only if one of its latest run in the frame is |
| Terminators.ScannedSettled | tools/PrintBug/PrintBug.cpp:218-236 | always: a terminator on the stack that needs a further look is the first of its frame from here on; if none does, the first of the frame has been kept |
| Reasons.BranchRight | tools/PrintBug/PrintBug.cpp:291-296 | the flag on the stack tells whether the next block of the frame is used and does not post-dominate this one |
| Reasons.CallerNeededExact | tools/PrintBug/PrintBug.cpp:333-337 | the call that entered a function is asked for if and only if an execution of that frame is kept |
| Reasons.WalkedReasons | tools/PrintBug/PrintBug.cpp:180-194 | the walk back through a block asks for exactly what its executions use and the block does not provide, and keeps nothing without reason |
| Reasons.BlockKeptExact | tools/PrintBug/PrintBug.cpp:173-194 | keeping a block late leaves pending exactly what is asked for by what is kept and what is kept late, position by position |
| Reasons.ScannedExactly | tools/PrintBug/PrintBug.cpp:212-352 | at every block, pending keys are exactly those asked for, and what is kept is exactly what was asked for |
| Reasons.KeptExactly | tools/PrintBug/PrintBug.cpp:202-353 | on every trace, an execution is kept if and only if something kept after it, or kept late before the scan came to it, asks for it; everything kept late is the first terminator of a used run, or asked for by what was kept before it when the walk came to it |
| Soundness.FollowsOwed | tools/PrintBug/PrintBug.cpp:115-158 | what a kept execution used, read, was called by, had returned to it or was branched to by is asked for |
| Soundness.ScannedSound | tools/PrintBug/PrintBug.cpp:202-353 | nothing that an impactful call is linked with in these ways, however indirectly, is reported |
| Frames.OperandExactly | tools/PrintBug/PrintBug.cpp:119-130 | the operand last computed in the frame is the one last computed in the thread, if and only if no deeper frame executes its instruction in between |
| Frames.OperandsExactly | tools/PrintBug/PrintBug.cpp:119-130 | the same for all executions at once |
| Frames.WithoutRecursion | tools/PrintBug/PrintBug.cpp:119-130 | no deeper frame does, if no function is entered while a frame of it is open |
| Frames.FramesAgree | tools/PrintBug/PrintBug.cpp:218-236 | the frames the scan sees are those that the marks of the trace tell, if it passes over no first block of a frame |
| RecursionRuns.AgainLost | tools/PrintBug/PrintBug.cpp:119-130 | a well-formed program and the events of a run on which an impactful call loses an operand to a deeper frame |
| LateKept.ReportedExactly | tools/PrintBug/PrintBug.cpp:202-353 | an execution is reported unless it is an exempt terminator, is asked for, begins a walk, or is taken by a walk that is asked for it; and only then |
| LateKept.LateDependency | tools/PrintBug/PrintBug.cpp:173-194 | a memory dependency of what is kept late is kept if the scan had not come to it; if it had been dropped, it is reported if and only if no walk takes it afterwards or kept it before |
| LateKept.LateOperand | tools/PrintBug/PrintBug.cpp:173-194 | for an operand, kept is what the walk takes if the block provides it, else the last execution the scan had not come to |
| LateKept.TrueOperand | tools/PrintBug/PrintBug.cpp:173-194 | by position, block and frame, when the operand that was truly used is kept; if the scan had dropped it, it is reported if and only if no walk begins with it or takes it |
| LateKept.MemberIs | tools/PrintBug/PrintBug.cpp:178-188 | the walk takes an execution if and only if since then its instruction has been executed as often as the terminator has |
| RunEnds.UsedEndKept | tools/PrintBug/PrintBug.cpp:218-236 | the first terminator of every used run of a basic block is kept, at once or late |
| RunEnds.EndReported | tools/PrintBug/PrintBug.cpp:202-353 | which executions are reported, told by used runs instead of walks |
| RunEnds.LaterRounds | tools/PrintBug/PrintBug.cpp:219-236 | in a loop of a single block, the terminators of later rounds are of no used run |
| Flow.MergedFlowing | tools/PrintBug/MergeTrace.cpp:94-262 | in what was merged from any events, each block of a frame goes on where the one before stopped, or starts a basic block whose `LastBBID` is that of the one before |
| Visits.NextFollows | tools/PrintBug/PrintBug.cpp:218-236 | the same of the blocks that the scan takes to be of one frame |
| LateInputs.ScannedMade | tools/PrintBug/PrintBug.cpp:218-232 | every walk was made at the first block of a frame with that block's `LastBBID`, or on coming to a block of another number with its `LastBBID` |
| LateInputs.LateInput | tools/PrintBug/PrintBug.cpp:180-232 | for the executions of the walked run, the first kind always has the right `LastBBID`, the second if and only if the block before has its own number as `LastBBID` |
| LateInputs.AnyInput | tools/PrintBug/PrintBug.cpp:180-232 | of whatever run an execution is that a walk takes, its inputs are chosen right if and only if control came to its run from a block of the number by which the walk chooses |
| LateRuns.KeptLateWrongly | tools/PrintBug/PrintBug.cpp:173-236 | a well-formed program and the events of a run on which a phi node kept late asks for the wrong input, a store that a kept load depends on is reported, and the load is printed in a bug |
| Addresses.ScannedRecords | tools/PrintBug/PrintBug.cpp:270-273 | recorded under an address are exactly the instructions of the accesses that start there and were not kept when they were passed |
| Components.Relate | tools/PrintBug/PrintBug.cpp:401-420 | two instructions are neighbours if and only if for an unneeded execution of one the report looks up an unneeded execution of the other: the operand's of the same number, or a memory dependency |
| Components.RelateAddresses | tools/PrintBug/PrintBug.cpp:422-428 | the least instruction under each address is linked with all of them, both ways, and nothing else is |
| Components.PushCovers | tools/PrintBug/PrintBug.cpp:384-393 | the unprinted neighbours of a printed entry always lie above it on the stack |
| Components.Printer.Visit | tools/PrintBug/PrintBug.cpp:384-393 | every round prints something new or shortens the stack, duplicates included |
| Components.Printer.Search | tools/PrintBug/PrintBug.cpp:377-394 | the search ends, and adds exactly what can be reached outside what was printed |
| Components.PrintBugs | tools/PrintBug/PrintBug.cpp:430-435 | the bugs are disjoint connected components and cover every instruction |
| Components.ReachConnected | tools/PrintBug/PrintBug.cpp:422-428 | searching the stars finds what is connected by what is looked up and by sharing an address with any other |
| Components.ReportsUnneeded | tools/PrintBug/PrintBug.cpp:422-435 | bugs hold unneeded instructions only, if and only if no unneeded instruction shares an address with one that is not |
| Components.PrintBug | tools/PrintBug/PrintBug.cpp:396-435 | the bugs are disjoint, cover the unneeded instructions, and each is all that is connected, by what is looked up or by an address, with one of them |
| TrueBugs.LookupExactly | tools/PrintBug/PrintBug.cpp:403-412 | the operand an execution used is the one that is looked up, if and only if after it both instructions are executed equally often |
| TrueBugs.LinksExactly | tools/PrintBug/PrintBug.cpp:403-412 | between unneeded executions, looked up is exactly what was used, if and only if that is so wherever either is unneeded, and no phi node has taken part |
| TrueBugs.BugsTrue | tools/PrintBug/PrintBug.cpp:396-435 | then each bug is all that is connected by use, memory dependency or address |
| BugRuns.RoundLost | tools/PrintBug/PrintBug.cpp:403-412 | a well-formed program and the events of a run on which a value and what was computed from it, both unneeded, are in different bugs |
| PassedCalls.SeenExactly | tools/PrintBug/PrintBug.cpp:251-259 | between blocks that are not passed over, the dependency pass sees the true dependences, if and only if no atomic access is on either side of one and no passed call hides a write from a block that reads it at no other byte |
| PassedCalls.NothingHidden | tools/PrintBug/PrintBug.cpp:251-259 | in particular if no atomic access touches a byte and nothing reads a byte that a passed call was last to write |
| PassedRuns.FreedLost | tools/PrintBug/ExtractMemoryDependency.cpp:69-90 | a well-formed program and the events of a run, grouped, on which a call of `free` hides a store from an impactful call that truly depends on it |
| PassedRuns.OpensLost | tools/PrintBug/PrintBug.cpp:251-259 | a well-formed program and the events of a run on which the call that led to an impactful call is reported, because the function begins with a call of `free` |
| Pipeline.ByteDepFollowed | tools/PrintBug/PrintBug.cpp:132-141 | a byte-level dependency that the dependency pass sees is one the slicer follows |
| Pipeline.TrueLinkSeen | tools/PrintBug/PrintBug.cpp:115-158 | where atomic accesses, passed calls, deeper frames and disturbed exits make no difference, the passes can tell all that an execution was made with: operands, bytes, calls, returned values, branches |
| Pipeline.SoundEndToEnd | tools/PrintBug/PrintBug.cpp:202-353 | nothing an impactful call was made with, however indirectly, is reported: on every trace, as far as the passes can tell; in truth, where those make no difference |
| Pipeline.RunOrdinary | tools/PrintBug/MergeTrace.cpp:48-263 | recorded events are of the kind of their instruction |
| Pipeline.Analyse | tools/PrintBug/PrintBug.cpp:485-519 | all passes in order: the merged trace with what the events recorded, the groups, the dependencies and that memory depends on them, the slice, no loss from values, bytes, calls and branches to the report, and the bugs, with what they truly are |
| Ring.StepKeeps | lib/SlimmerRuntime/SlimmerRuntime.cpp:85-113 | every step of every thread keeps slots, counters and semaphores consistent |
| Ring.RunSafe | lib/SlimmerRuntime/SlimmerRuntime.cpp:85-211 | over all interleavings: the file is an in-order prefix without duplicates, and each slot is empty, filled or held by exactly one side |
| Ring.NoDeadlock | lib/SlimmerRuntime/SlimmerRuntime.cpp:85-113 | a waiting producer means that a worker can step, a waiting compressor that the dumper can; workers that cannot step have written everything |
| Ring.WorkersRest | lib/SlimmerRuntime/SlimmerRuntime.cpp:85-113 | left alone, the workers come to rest |
| Ring.ClosesComplete | lib/SlimmerRuntime/SlimmerRuntime.cpp:162-186 | a shutdown that finds the workers caught up ends with the whole trace in the file |
| Ring.ClosesIncomplete | lib/SlimmerRuntime/SlimmerRuntime.cpp:173-177 | any other shutdown loses a block |
| Ring.ClosingEnds | lib/SlimmerRuntime/SlimmerRuntime.cpp:173-177 | each step of a shutdown brings its end nearer |
| Ring.ShutdownLeaves | lib/SlimmerRuntime/SlimmerRuntime.cpp:173-177 | at the end of every shutdown each worker is left waiting if and only if it has more blocks to pass than the other will let it, and at which semaphore |
| Ring.ShutdownHangs | lib/SlimmerRuntime/SlimmerRuntime.cpp:173-177 | a run after which the dumper waits for ever |
| Ring.CompressorHangs | lib/SlimmerRuntime/SlimmerRuntime.cpp:173-177 | a run after which the compressor waits for ever |
| Layout.EncodeLaysOut | lib/SlimmerRuntime/SlimmerRuntime.cpp:294-482 | an event's bytes: label at both ends, each field at its place, least significant byte first, by numbers for every kind |
| Layout.GetEventReads | lib/SlimmerUtil/Routines.cpp:198-254 | of any bytes, in both directions: what is read is the event told by the label at the position and the fields at their places, if it is a label and all of the event is there |
| Layout.FrameLaysOut | lib/SlimmerRuntime/SlimmerRuntime.cpp:224-243 | a compressed block stands between two copies of its length |
| Layout.UnframeReads | tools/PrintBug/Util.cpp:87-95 | of any file: a frame is read if and only if the length is there, and so many bytes that decompress to a block; the second length is passed over |
| Codec.DecodeEncode | lib/SlimmerUtil/Routines.cpp:198-254 | the fields read are the fields written, for every kind of event |
| Codec.ReadForward | lib/SlimmerUtil/Routines.cpp:198-254 | reading forward from the start of an event gives the event and its size |
| Codec.ReadBackward | lib/SlimmerUtil/Routines.cpp:198-254 | reading backward from its last byte gives the same |
| Codec.ParseEncoded | lib/SlimmerUtil/Routines.cpp:198-254 | walking forward over encoded events visits all of them |
| Codec.ParseBackEncoded | lib/SlimmerUtil/Routines.cpp:198-254 | walking backward visits the same events in reverse |
| TraceFile.TraceBuffer.StartAppend | lib/SlimmerRuntime/SlimmerRuntime.cpp:193-211 | an event that does not fit pads the block, hands it over and starts the next |
| TraceFile.TraceBuffer.Append | lib/SlimmerRuntime/SlimmerRuntime.cpp:294-482 | the event's bytes follow what was written; no event straddles two blocks |
| TraceFile.TraceBuffer.Close | lib/SlimmerRuntime/SlimmerRuntime.cpp:169-174 | the end event, then padding, then the last block is handed over |
| TraceFile.TraceIter.Prepare | tools/PrintBug/Util.cpp:83-97 | moves to the next block when one is used up, and ends after the end event or the file |
| TraceFile.TraceIter.NextEvent | tools/PrintBug/Util.cpp:119-131 | gives the first of the remaining events and leaves the rest |
| TraceFile.BlockReadsBothWays | lib/SlimmerUtil/Routines.cpp:198-254 | a padded block holds the same events in both directions |
| TraceFile.RoundTrip | tools/PrintBug/Util.cpp:83-131 | reading the framed blocks and dropping placeholders gives the recorded events, then the end, whatever has been appended to the file |
| TraceFile.RecordAndRead | tools/PrintBug/Util.cpp:83-131 | the writer's and the reader's loops together give back the events |
| Base64.SplitMasks | lib/SlimmerUtil/base64.cpp:50-53 | the masks and shifts of the encoder are the divisions and remainders of Split |
| Base64.SplitDigits | lib/SlimmerUtil/base64.cpp:50-53 | Split gives the four digits of the 24-bit number |
| Base64.AlphabetIs | lib/SlimmerUtil/base64.cpp:30-34 | the letter of a digit is the one at its place in the alphabet |
| Base64.EncodedBits | lib/SlimmerUtil/base64.cpp:40-81 | for every byte string, bit by bit: letter k is that of the six bits from 6k on, '=' where there are none; four letters for each group of three bytes begun |
| Base64.DecodedBits | lib/SlimmerUtil/base64.cpp:83-121 | for every string, bit by bit: byte k is the eight bits from 8k on of the digits it starts with; as many bytes as those bits fill |
| Base64.Encode | lib/SlimmerUtil/base64.cpp:40-81 | encoding meets section 4 of RFC 4648, padding included |
| Base64.JoinMasks | lib/SlimmerUtil/base64.cpp:97-99 | the masks and shifts of the decoder are the divisions and remainders of Join |
| Base64.JoinNumber | lib/SlimmerUtil/base64.cpp:97-99 | Join puts the 24-bit number together again |
| Base64.TailBytes | lib/SlimmerUtil/base64.cpp:107-119 | at the end, the digits that are not found change no byte that is output |
| Base64.Decode | lib/SlimmerUtil/base64.cpp:83-121 | decoding reads section 4 of RFC 4648 backward, up to the first character that is not a digit |
| Base64.DecodedEncoded | lib/SlimmerUtil/base64.cpp:40-121 | decoding gives back every byte string that was encoded |

## Left out

- Recording.MergeInverts: assumes what the instrumentation arranges, that a call to anything but an intrinsic enters instrumented code and that an external call does not call back.
- Recording.MergeFollows: of padding it assumes that the last thread is at rest, which PadKeeps shows to be exactly what is needed.
- MergeTrace.Merger.CloseAll: the block that the closing loop reads from the stack of another thread (tools/PrintBug/MergeTrace.cpp:271) is a parameter; when that stack is empty the read is undefined. StaleFrames.StaleHarmless shows that no later pass depends on it.
- Pipeline.SoundEndToEnd: of control dependence it has the branch straight to a run of a block that is not inevitable from there; the scan asks for no branch further back, unless in turn. It assumes that no instruction is executed by one thread both as a passed over call and as another access, which is so if every event is of its instruction's kind.
- Pipeline.RunOrdinary: assumes that `free`, `va_start` and `va_end` are not among the impactful functions.
- MemoryDependency.ExtractMemoryDependency: gives sets; the order of each vector in `mem_dep` is not modelled. It counts atomic accesses neither as reads nor as writes; Atomics.ExtractedTruly says exactly when this makes no difference.
- LateInputs.LateInput: assumes that events are of their instruction's kind and that the scan passes over no first block of a frame. It speaks of the executions of the walked run; where a block is entered again by recursion in that run, the walk may take others: LateKept.MemberIs says which, LateInputs.AnyInput with what inputs.
- TraceFile.RoundTrip: compression is any pair that gives back what was put in with non-empty output; LZ4 itself is not part of this model.
- The printing of the bugs: source lines, call counts, the order within a bug.
- 32-bit wrap-around of execution counts and instruction numbers, and of group numbers.
- Pointers into the decoded block that outlive it (`tid_ptr` after a block that begins with an end event), and blocks shorter than an event.
- Files, mmap, signals, thread start, the memory the trace is written from, and the checks for writes that change nothing; only the zero length they record matters.
- The text of the instruction file, the LLVM passes that insert the calls, the Pin and ptrace tools; the impactful functions and the program are inputs.
- `EventBuffer` and `CompressBuffer`, simpler forms of the framing that would add easy members.
