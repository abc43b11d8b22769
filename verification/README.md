# Skynet game server: verified models of its hard parts

The repository is a game server on the skynet actor runtime, with the C libraries it bundles. This project models the
parts of it whose correctness is not visible from any one function, and proves what they promise.

| part | files | main results |
|---|---|---|
| LPeg compiler and virtual machine | `Lpeg*.dfy` | `LpegPattern.MatchPattern`, `LpegRun.CompileAndMatch` |
| A\* on the game's grid | `AStar*.dfy` | `AStarRun.FindPath`, `AStarRoom.EnoughRoom`, `AStarRoom.MoreRoom` |
| actor scheduler, reader-writer lock | `Scheduler*.dfy`, `RwLock.dfy`, `RingBuffer.dfy` | `SchedulerRuns.*`, `SchedulerHistory.AcceptedArrive`, `SchedulerProgress.EveryMessageCanSettle`, `RwLock.MutualExclusion`, `RwLock.NoDeadlock` |
| handle registry | `Handle*.dfy` | `HandleStorage.Storage.Register`, `NameHandle`, `HandleStorage.HandOutZero` |
| timing wheel | `Timer*.dfy` | `TimerWheel.Drive` |
| big integers and decimal digits | `Big*.dfy`, `DigitGeneration.dfy`, `DtoaFixed.dfy` | `BigintDivision.QuoRem`, `DtoaFixed.Convert` |
| packet reassembly | `Net*.dfy` | `NetPack.Receive`, `NetSchedule.InOrder` |
| socket send buffers | `SendBuffer.dfy` | `SendBuffer.Transmit`, `SendBuffer.DirectFirst`, `SendBuffer.HighFirst` |
| shared tables | `Shared*.dfy` | `SharedTable.Table.Index`, `Iterate` |
| serializer | `Seri*.dfy` | `SeriBlocks.PackAndUnpack` |

`Basics`, `Arithmetic` and `Sets` hold what the models share. `dafny verify dfyconfig.toml` checks everything.

How the models are built:

- **LPeg.** `Parse` is the reference: the big-step semantics of parsing expressions. `Gen` is the code the generator
  emits, with all its optimisations (head tests, follow-disjoint repetition and choice, span, partial commit, behind).
  `Implements` is the contextual correctness of a piece of code: for every program around it, every subject and every
  stack, given the test that has already succeeded and the set of characters that may follow. The imperative code
  generator appends exactly `Gen`, `peephole` rewrites the code array in place by steps that preserve every final
  outcome, and `Match` is the interpreter loop.
- **Scheduler.** Each section under a spin lock or the registry lock is one step of one call in progress; there are any
  number of calls, and any interleaving is a run. The registration of a context, the store of its handle and the
  creation of its queue are one step. A handle is not given out again while its queue exists. The ring inside a queue
  is `RingBuffer.Ring`, which is proved to be the sequence that the steps use.
- **Path search.** `AStarRoom.Final` is the search as a function of the problem and the room for nodes, and the loops
  over the arrays are proved to compute it. The game searches with less room than its map has cells, so what is proved
  is how much room is enough, and what happens when there is not enough.
- **Timing wheel.** The wheel is compared with a calendar of everything ever added, with due times counted without
  wrap-around.
- **Big integers.** Words are integers below 2^32 and every 64-bit intermediate is shown to fit. Allocated words start
  out arbitrary, as they do on a free list.
- **Kernel and hash.** The answers of `write` are a parameter of the send buffers, and the hash of a shared table is an
  arbitrary function.

Three findings about the code:

- `skynet_context_new` drops its reference before it stores `ctx->init`, and the line it then logs reads the handle of
  the context, as `cmd_launch` does after it. `SchedulerRuns.PeekAfterDelete` has a run for each of the three in which it
  meets a context that has been deleted, and `SchedulerRuns.PeekIsSafe` says exactly when it does not: as long as the
  handle is registered or some call refers to the context or is about to delete it.
- A comment in `skynet_handle.c` reserves handle 0. The counter wraps at 24 bits and zero is not skipped.
  `HandleStorage.HandOutZero` is a run that hands it out, and the contract of `HandleStorage.Storage.Register` says
  exactly when that happens: in harbor 0, when the search for a free slot wraps around to slot 0 and finds it free. A
  name can then be bound to handle 0, and `FindName` answers as for a name that is not bound.
- `lua-netpack.c` hands out a packet that is alone in its chunk at once, also while packets of the same connection are
  queued. `NetSchedule.ThirdFirst` is a schedule in which the third packet of a connection comes out first, and
  `NetSchedule.InOrder` with `NetSchedule.OvertakenExactly` says when the order is kept: exactly when no packet of the
  connection is in the queue at a direct hand-out.

## Model

| member | source | states |
|---|---|---|
| `LpegCharsetBytes.CharsetType` | 3rd/skynet/3rd/lpeg/lpcode.c:41-82 | the byte scan classifies a 32-byte set as empty, full, a single character (and which one) or other, exactly as the set of its members is |
| `LpegCharset.KindMeaning` | 3rd/skynet/3rd/lpeg/lpcode.c:41-82 | a set of each kind has no member, one member, all members, or two members and a character that is missing |
| `LpegCharsetBytes.UnionInto` | 3rd/skynet/3rd/lpeg/lpcode.c:267-343 | or-ing bytes is the union of the members |
| `LpegCharsetBytes.IntersectInto` | 3rd/skynet/3rd/lpeg/lpcode.c:267-343 | and-ing bytes is the intersection of the members |
| `LpegCharsetBytes.ComplementInPlace` | 3rd/skynet/3rd/lpeg/lpcode.c:88-90 | complementing bytes is the complement of the members |
| `LpegCharsetBytes.EqualBytes` | 3rd/skynet/3rd/lpeg/lpcode.c:92-95 | equal bytes exactly for equal sets |
| `LpegCharsetBytes.DisjointBytes` | 3rd/skynet/3rd/lpeg/lpcode.c:97-101 | the byte test is true exactly for disjoint sets |
| `LpegCharsetBytes.SetChar` | 3rd/skynet/3rd/lpeg/lpcode.c:107-128 | setting a bit adds that character and no other |
| `LpegAnalysis.ToCharsetSound` | 3rd/skynet/3rd/lpeg/lpcode.c:107-128 | a pattern with a charset matches one character, exactly when it is in the set |
| `LpegAnalysis.NullableSound` | 3rd/skynet/3rd/lpeg/lpcode.c:172-209 | a match that consumes nothing implies nullable |
| `LpegAnalysis.NullableExactly` | 3rd/skynet/3rd/lpeg/lpcode.c:172-209 | without predicates, nullable says exactly which patterns match the empty subject |
| `LpegAnalysis.NoFailSound` | 3rd/skynet/3rd/lpeg/lpcode.c:172-209 | a nofail pattern never fails |
| `LpegAnalysis.NoFailExactly` | 3rd/skynet/3rd/lpeg/lpcode.c:172-209 | without predicates, so does nofail: a pattern that matches the empty subject never fails |
| `LpegAnalysis.FixedLenXSound` | 3rd/skynet/3rd/lpeg/lpcode.c:213-251 | a result that is not negative is the length so far plus what every success consumes |
| `LpegAnalysis.FixedLenXExactly` | 3rd/skynet/3rd/lpeg/lpcode.c:213-251 | it is the length so far plus the width of the pattern, and negative exactly where the shape gives no width |
| `LpegAnalysis.FixedLenSound` | 3rd/skynet/3rd/lpeg/lpcode.c:213-251 | every success of a pattern of fixed length n consumes n |
| `LpegAnalysis.FirstSound` | 3rd/skynet/3rd/lpeg/lpcode.c:267-343 | for any follow set, a success on a next character outside the first set consumes nothing and leaves a character outside the follow set |
| `LpegAnalysis.FirstFails` | 3rd/skynet/3rd/lpeg/lpcode.c:267-343 | a next character outside the first set for the full follow set means failure |
| `LpegAnalysis.EmptyFails` | 3rd/skynet/3rd/lpeg/lpcode.c:267-343 | where getfirst returns 0, the pattern fails at the end of the subject |
| `LpegAnalysis.TestFails` | 3rd/skynet/3rd/lpeg/lpcode.c:267-343 | a failed test on the first set means failure of the pattern |
| `LpegAnalysis.HeadFailEmpty` | 3rd/skynet/3rd/lpeg/lpcode.c:350-372 | headfail implies that getfirst returns 0 |
| `LpegAnalysis.HeadFailExact` | 3rd/skynet/3rd/lpeg/lpcode.c:350-372 | a headfail pattern fails exactly when the input is empty or its next character is outside the first set |
| `LpegMachine.FinalUnique` | 3rd/skynet/3rd/lpeg/lpvm.c:147-351 | a run has one final state |
| `LpegCorrect.SeqImplements` | 3rd/skynet/3rd/lpeg/lpcode.c:871-888 | code of a sequence is correct in every context, with the follow set and the test passed on as codeseq1 does |
| `LpegCorrect.ChoiceTestImplements` | 3rd/skynet/3rd/lpeg/lpcode.c:650-690 | a choice compiled to a test and a jump is correct where the first sets are disjoint or the first alternative is headfail |
| `LpegCorrect.OptionImplements` | 3rd/skynet/3rd/lpeg/lpcode.c:650-690 | `p / true` under a caller's choice is correct with a partial commit |
| `LpegCorrect.ChoiceImplements` | 3rd/skynet/3rd/lpeg/lpcode.c:650-690 | the general choice, with its test of the first alternative, is correct in every context |
| `LpegCorrect.SpanImplements` | 3rd/skynet/3rd/lpeg/lpcode.c:749-790 | a span is the repetition of a charset |
| `LpegCorrect.RepTestImplements` | 3rd/skynet/3rd/lpeg/lpcode.c:749-790 | a repetition by test and jump is correct where the body is headfail or its first set misses the follow set |
| `LpegCorrect.RepImplements` | 3rd/skynet/3rd/lpeg/lpcode.c:749-790 | the general repetition, by choice or under a caller's choice by partial commits, is correct |
| `LpegCorrect.NotTestImplements` | 3rd/skynet/3rd/lpeg/lpcode.c:795-812 | a headfail pattern negated by a test alone |
| `LpegCorrect.NotImplements` | 3rd/skynet/3rd/lpeg/lpcode.c:795-812 | the general negation, by choice and fail-twice |
| `LpegCorrect.AndBehindImplements` | 3rd/skynet/3rd/lpeg/lpcode.c:693-710 | look-ahead over a fixed length by matching and stepping back |
| `LpegCorrect.AndImplements` | 3rd/skynet/3rd/lpeg/lpcode.c:693-710 | the general look-ahead, by choice and back-commit |
| `LpegCorrect.BehindImplements` | 3rd/skynet/3rd/lpeg/lpcode.c:632-638 | look-behind by stepping back a fixed length |
| `LpegCorrect.GenImplements` | 3rd/skynet/3rd/lpeg/lpcode.c:891-916 | for every well-formed tree, option, test and follow set, the code generated implements the tree |
| `LpegCorrect.ProgramCorrect` | 3rd/skynet/3rd/lpeg/lpcode.c:973-978 | the whole program, started anywhere in any subject, ends with the outcome of `Parse` |
| `LpegCharsetBytes.Packed` | 3rd/skynet/3rd/lpeg/lptypes.h:89-101 | every set has bytes that stand for it |
| `LpegCompile.KindByBytes` | 3rd/skynet/3rd/lpeg/lpcode.c:41-82 | the generator classifies sets by their bytes |
| `LpegCompile.CompileState.AddInstruction` | 3rd/skynet/3rd/lpeg/lpcode.c:467-472 | appends one instruction and returns its index |
| `LpegCompile.CompileState.AddOffsetInst` | 3rd/skynet/3rd/lpeg/lpcode.c:478-483 | appends an instruction with room for its label |
| `LpegCompile.CompileState.JumpToThere` | 3rd/skynet/3rd/lpeg/lpcode.c:516-519 | patches one label and nothing else |
| `LpegCompile.CompileState.JumpToHere` | 3rd/skynet/3rd/lpeg/lpcode.c:525-527 | patches a label to the end of the code |
| `LpegCompile.CompileState.EmitTestSet` | 3rd/skynet/3rd/lpeg/lpcode.c:587-608 | appends the test for a set, or none where the pattern accepts the empty string |
| `LpegCompile.CompileState.EmitCharset` | 3rd/skynet/3rd/lpeg/lpcode.c:561-581 | appends the cheapest instruction for a set, or only a step over a character already tested |
| `LpegCompile.CompileState.EmitChoice` | 3rd/skynet/3rd/lpeg/lpcode.c:650-690 | appends exactly the code specified for a choice |
| `LpegCompile.CompileState.EmitRep` | 3rd/skynet/3rd/lpeg/lpcode.c:749-790 | appends exactly the code specified for a repetition |
| `LpegCompile.CompileState.EmitNot` | 3rd/skynet/3rd/lpeg/lpcode.c:795-812 | appends exactly the code specified for a negation |
| `LpegCompile.CompileState.EmitAnd` | 3rd/skynet/3rd/lpeg/lpcode.c:693-710 | appends exactly the code specified for a look-ahead |
| `LpegCompile.CompileState.CodeGen` | 3rd/skynet/3rd/lpeg/lpcode.c:891-916 | appends exactly the code of `Gen`, whatever is there already |
| `LpegLabels.GoodGen` | 3rd/skynet/3rd/lpeg/lpcode.c:891-916 | generated code is a row of whole instructions, and its labels stay inside it, at starts of instructions |
| `LpegLabels.ProgramShape` | 3rd/skynet/3rd/lpeg/lpcode.c:614-620 | in a whole program every chain of jumps ends, so finaltarget terminates |
| `LpegPeephole.Simulates` | 3rd/skynet/3rd/lpeg/lpcode.c:928-967 | original and rewritten code go through the same states, up to jumps already followed |
| `LpegPeephole.RewritingPreserves` | 3rd/skynet/3rd/lpeg/lpcode.c:928-967 | one rewriting of peephole preserves the outcome of every run |
| `LpegPeephole.RewritingKeepsLabels` | 3rd/skynet/3rd/lpeg/lpcode.c:928-967 | and keeps the labels in order for the next one |
| `LpegRun.ChaseJumps` | 3rd/skynet/3rd/lpeg/lpcode.c:614-620 | follows a chain of jumps to its end |
| `LpegRun.Peephole` | 3rd/skynet/3rd/lpeg/lpcode.c:928-967 | the pass over the code array, in place, preserves every outcome; after it no label leads to a jump, and no jump to an instruction that jumps or ends anyway |
| `LpegRun.Compile` | 3rd/skynet/3rd/lpeg/lpcode.c:973-982 | generation and peephole yield code that computes the pattern, with every jump threaded |
| `LpegRun.Match` | 3rd/skynet/3rd/lpeg/lpvm.c:147-351 | the interpreter loop ends, with the outcome of the run |
| `LpegRun.CompileAndMatch` | 3rd/skynet/3rd/lpeg/lpcode.c:973-982 | compiling any well-formed pattern and running it anywhere in any subject gives the end position or failure of `Parse` |
| `LpegRewrite.StringMeaning` | 3rd/skynet/3rd/lpeg/lptree.c:444-454 | a string matches itself and nothing else |
| `LpegRewrite.NumberMeaning` | 3rd/skynet/3rd/lpeg/lptree.c:419-435 | a number matches that many characters; a negative one succeeds, without consuming, exactly where there are fewer |
| `LpegRewrite.SeqOfSame` | 3rd/skynet/3rd/lpeg/lptree.c:532-542 | the simplified sequence matches what the sequence matches |
| `LpegRewrite.ChoiceOfSame` | 3rd/skynet/3rd/lpeg/lptree.c:551-566 | the simplified choice matches what the choice matches |
| `LpegRewrite.SubOfMeaning` | 3rd/skynet/3rd/lpeg/lptree.c:627-646 | the difference matches as the first pattern, where the second does not match |
| `LpegRewrite.StarOfWellFormed` | 3rd/skynet/3rd/lpeg/lptree.c:572-602 | a repetition that is not refused is well formed |
| `LpegRewrite.StarOfMeaning` | 3rd/skynet/3rd/lpeg/lptree.c:572-602 | `p^n` is refused exactly for a nullable p and n >= 0; else it is n matches and then the loop, or, for n < 0, as many matches as there are up to -n |
| `LpegRewrite.AtLeastMeaning` | 3rd/skynet/3rd/lpeg/lptree.c:576-584 | `p^n` is n matches of p and then the loop |
| `LpegRewrite.RepMeaning` | 3rd/skynet/3rd/lpeg/lptree.c:582-583 | a well-formed loop is the number of matches after which the body fails |
| `LpegRewrite.AtMostMeaning` | 3rd/skynet/3rd/lpeg/lptree.c:585-599 | `p^-n` is as many matches of p as there are, and no more than n |
| `LpegRewrite.RotatedSame` | 3rd/skynet/3rd/lpeg/lptree.c:78-90 | rotation to the right preserves every match, and well-formedness |
| `LpegRewrite.FinalFixSame` | 3rd/skynet/3rd/lpeg/lptree.c:100-126 | the final adjustment preserves every match |
| `LpegRewrite.FinalFixShape` | 3rd/skynet/3rd/lpeg/lptree.c:100-126 | after it no first operand is of the kind of its parent |
| `LpegRewrite.FinalFixAlike` | 3rd/skynet/3rd/lpeg/lptree.c:100-126 | nullable, nofail and fixed length are the same before and after, and the tree stays well formed |
| `LpegFlat.CorrectAssociativity` | 3rd/skynet/3rd/lpeg/lptree.c:78-90 | moving slots in place turns the flat tree into its rotation, of the same size, and ends |
| `LpegFlat.FinalFixAt` | 3rd/skynet/3rd/lpeg/lptree.c:100-126 | in place, in its own slots, the flat tree becomes the adjusted tree |
| `LpegFlat.SeqAux` | 3rd/skynet/3rd/lpeg/lptree.c:389-393 | writes the head and first child of a sequence, and nothing else |
| `LpegFlat.StarAtLeast` | 3rd/skynet/3rd/lpeg/lptree.c:576-584 | fills exactly (n+1)(size+1) slots with the flat tree of at least n repetitions |
| `LpegFlat.StarAtMost` | 3rd/skynet/3rd/lpeg/lptree.c:585-599 | fills exactly n(size+3)-1 slots with the flat tree of at most n repetitions |
| `LpegFlat.Star` | 3rd/skynet/3rd/lpeg/lptree.c:572-602 | refuses, or fills exactly the slots of the tree of the repetition |
| `LpegFlat.FillSeq` | 3rd/skynet/3rd/lpeg/lptree.c:401-411 | fills exactly 2n-1 slots with the sequence of n leaves |
| `LpegFlat.StringTree` | 3rd/skynet/3rd/lpeg/lptree.c:444-454 | fills exactly its slots with the flat tree of a string |
| `LpegFlat.NumberTree` | 3rd/skynet/3rd/lpeg/lptree.c:419-435 | fills exactly its slots with the flat tree of a number |
| `LpegFlat.NewRoot` | 3rd/skynet/3rd/lpeg/lptree.c:505-516 | fills exactly its slots with a root and copies of two trees |
| `LpegFlat.Seq` | 3rd/skynet/3rd/lpeg/lptree.c:532-542 | the flat tree of the simplified sequence, told by the first slots of the operands |
| `LpegFlat.Choice` | 3rd/skynet/3rd/lpeg/lptree.c:551-566 | the flat tree of the simplified choice |
| `LpegFlat.Sub` | 3rd/skynet/3rd/lpeg/lptree.c:637-642 | fills exactly its slots with the flat tree of the difference |
| `LpegPattern.MatchPattern` | 3rd/skynet/3rd/lpeg/lptree.c:1095-1100 | adjusting, compiling and running a pattern gives what the pattern as written means |
| `AStarGrid.PassableSquare` | game/lualib-src/pathfinding.c:313-328 | a body of one square fits on the goal, blocked or not, and else exactly on the free squares of the map |
| `AStarGrid.Consistent` | game/lualib-src/pathfinding.c:162-176 | the heuristic drops along a step by at most half of what the step costs |
| `AStarGrid.NeighbourComplete` | game/lualib-src/pathfinding.c:272-285 | the table of offsets holds every adjacent cell |
| `AStarGrid.NeighbourAdjacent` | game/lualib-src/pathfinding.c:272-285 | and only those, with twice the distance as cost |
| `AStarSearch.PopOptimal` | game/lualib-src/pathfinding.c:299-303 | a node of lowest score is reached as cheaply as any walk can |
| `AStarSearch.Frontier` | game/lualib-src/pathfinding.c:299-345 | every walk to a cell that is not closed passes an open node that costs no more than the walk so far |
| `AStarSearch.EmptyMeansUnreachable` | game/lualib-src/pathfinding.c:299-355 | with an empty open set no walk leads to the goal |
| `AStarSearch.PathOfWalk` | game/lualib-src/pathfinding.c:402-420 | following camefrom gives a walk, and gscore is its cost |
| `AStarSearch.PathStep` | game/lualib-src/pathfinding.c:402-420 | the scores grow strictly along a link, so following it ends |
| `AStarSearch.PathOfDistinct` | game/lualib-src/pathfinding.c:402-420 | a path visits no cell twice |
| `AStarSearch.StartLowest` | game/lualib-src/pathfinding.c:255-270 | the start node has the lowest score of all nodes |
| `AStarSearch.TurnKeeps` | game/lualib-src/pathfinding.c:306-344 | each neighbour handled keeps the invariant and hands on the cost of its node |
| `AStarRoom.FindsExactly` | game/lualib-src/pathfinding.c:289-356 | the goal is found exactly if it is discovered, also after the nodes have run out |
| `AStarRoom.MoreRoom` | game/lualib-src/pathfinding.c:187-202 | with less room the search discovers the first cells of what it discovers with more, in the same order; so the goal is found exactly if it is among these |
| `AStarRoom.DiscoveredReachable` | game/lualib-src/pathfinding.c:289-356 | what is discovered are different cells that can be reached, no more than there is room for |
| `AStarRoom.MissesOnlyWhenFull` | game/lualib-src/pathfinding.c:289-356 | a search that misses a goal to which a walk leads has used up its room, on different cells of the region of that walk, and left one of them out |
| `AStarRoom.EnoughRoom` | game/lualib-src/pathfinding.c:289-356 | with room for the region of some walk to the goal (the cells next to those that a walk of that cost could still use) the goal is found, at least cost |
| `AStarRoom.WholeMap` | game/lualib-src/pathfinding.c:187-202 | room for all cells of the map is enough |
| `AStarRoom.NearGoal` | game/lualib-src/pathfinding.c:187-202 | so is room for a square around the start whose side grows with the cost of a walk to the goal |
| `AStarRun.Context.AddOpen` | game/lualib-src/pathfinding.c:187-202 | appends a node and opens it, unless the nodes have run out |
| `AStarRun.Context.LowestFscore` | game/lualib-src/pathfinding.c:204-224 | takes the first of the lowest scores out of the open set |
| `AStarRun.Context.AddClosed` | game/lualib-src/pathfinding.c:226-229 | adds to the closed set at the other end of the shared array, which the open set does not reach |
| `AStarRun.Context.InClosed` | game/lualib-src/pathfinding.c:231-241 | true exactly if a closed node stands at the cell |
| `AStarRun.Context.FindOpen` | game/lualib-src/pathfinding.c:243-253 | the open node at a cell, or none exactly if there is none |
| `AStarRun.Context.Fits` | game/lualib-src/pathfinding.c:313-328 | the window loops accept exactly the cells where the body fits |
| `AStarRun.Context.Nearest` | game/lualib-src/pathfinding.c:255-270 | a node of the range with the lowest score |
| `AStarRun.Context.PathFinding` | game/lualib-src/pathfinding.c:289-356 | the loops compute the search, for any room: the node at the goal, or the start node |
| `AStarRun.Context.Positions` | game/lualib-src/pathfinding.c:402-420 | fills exactly as many positions as the path has cells, from its end to its start |
| `AStarRun.FindPath` | game/lualib-src/pathfinding.c:375-433 | for every map, body size and depth: a walk without repetition to the goal, or just the start; a cheapest walk to the goal where there is room for the region of some walk, in particular for the whole map; just the start only where no walk exists, or where the room was used up without coming to the goal |
| `SchedulerInvariant.StepKeeps` | 3rd/skynet/skynet-src/skynet_server.c:120-335 | every step of every call keeps references counted, queues in one place, and histories complete |
| `SchedulerRuns.RunInv` | 3rd/skynet/skynet-src/skynet_server.c:120-335 | so does every run of any number of calls |
| `SchedulerRuns.OnePlace` | 3rd/skynet/skynet-src/skynet_mq.c:43-75 | a queue is in one call's hands or once in the global queue, never both, and with messages in it never neither; so a push to the global queue never finds it there |
| `SchedulerRuns.CallbackExclusive` | 3rd/skynet/skynet-src/skynet_server.c:276-335 | a callback never runs twice at once, nor beside init, nor before init is over |
| `SchedulerRuns.Conservation` | 3rd/skynet/skynet-src/skynet_mq.c:137-250 | messages leave in the order of their arrival, each once; once the queue is freed all have left and none arrives any more |
| `SchedulerHistory.History` | 3rd/skynet/skynet-src/skynet_mq.c:137-206 | what a queue has received are the messages of the calls that went through their push, in that order, and nothing else; what has left it are those of the callbacks and drops that ended, in that order |
| `SchedulerHistory.AcceptedArrive` | 3rd/skynet/skynet-src/skynet_server.c:219-229 | every message accepted for a registered handle has been pushed exactly once, or its sender is still about to push it |
| `SchedulerHistory.FateMeans` | 3rd/skynet/skynet-src/skynet_server.c:276-335 | a message that leaves was the one in flight; it is dropped exactly where the context has been deleted, and dispatched or discarded where it has not |
| `SchedulerHistory.GlobalFifo` | 3rd/skynet/skynet-src/skynet_mq.c:43-75 | the list of queues is first in, first out |
| `SchedulerProgress.SendWorks` | 3rd/skynet/skynet-src/skynet_server.c:219-229 | after the two steps of a send the message is last in the queue, and the queue is listed or in hand |
| `SchedulerProgress.LaunchWorks` | 3rd/skynet/skynet-src/skynet_server.c:120-175 | from every state, a launch that goes on alone leaves the service registered, initialized and listed, and nothing else changed |
| `SchedulerProgress.FailedLaunch` | 3rd/skynet/skynet-src/skynet_server.c:163-171 | if init fails, the launch unregisters, deletes and frees the service, and nothing else changed |
| `SchedulerProgress.KillWorks` | 3rd/skynet/skynet-src/skynet_handle.c:69-106 | a kill unregisters the service for good |
| `SchedulerProgress.Finish` | 3rd/skynet/skynet-src/skynet_server.c:120-335 | any call that goes on alone comes to its end |
| `SchedulerProgress.EveryMessageCanSettle` | 3rd/skynet/skynet-src/skynet_server.c:276-335 | from every state of every run there is a way on in which all calls return, every message received has been dispatched, discarded or dropped, and exactly the services that have been retired are deleted and freed |
| `SchedulerRuns.Lifetime` | 3rd/skynet/skynet-src/skynet_server.c:198-217 | a context is deleted once, by one call, exactly when no reference is left; its queue is then freed once, by the one call that has it |
| `SchedulerRuns.NoUseAfterFree` | 3rd/skynet/skynet-src/skynet_server.c:185-229 | no call that refers to a context or holds a queue meets one that is gone; only the three accesses of a launch after its release can |
| `SchedulerRuns.PeekIsSafe` | 3rd/skynet/skynet-src/skynet_server.c:153-162 | the store into `ctx->init`, the log line behind it and the read of the caller (lines 467-481) meet a living context exactly where the handle is registered or someone still refers to the context or is about to delete it |
| `SchedulerRuns.PeekAfterDelete` | 3rd/skynet/skynet-src/skynet_server.c:153-162 | for each of the three, a run in which it does not |
| `RwLock.StepKeeps` | 3rd/skynet/skynet-src/rwlock.h:17-48 | every atomic operation keeps the counters equal to the threads they count |
| `RwLock.MutualExclusion` | 3rd/skynet/skynet-src/rwlock.h:17-48 | for any number of threads and any interleaving, a writer inside is alone, and `read` counts the threads past the increment and not past the decrement |
| `RwLock.ReaderEnters` | 3rd/skynet/skynet-src/rwlock.h:17-29 | with no owner, a reader is in after three operations of its own and out after four, whoever else reads or waits |
| `RwLock.WriterEnters` | 3rd/skynet/skynet-src/rwlock.h:31-42 | with no owner and no counted reader, a writer is in after two and out after three |
| `RwLock.CheckEnters` | 3rd/skynet/skynet-src/rwlock.h:17-29 | at its second look a reader enters exactly if no thread owns the lock |
| `RwLock.NoDeadlock` | 3rd/skynet/skynet-src/rwlock.h:17-48 | from every state of every run there is a way on in which all that are in leave, all that wait go in and leave, and the lock is free |
| `RwLock.CanAlwaysEnter` | 3rd/skynet/skynet-src/rwlock.h:17-48 | so from every state any thread can get to read, and to write |
| `RingBuffer.Ring.Push` | 3rd/skynet/skynet-src/skynet_mq.c:173-206 | appends to the sequence of entries, across growth |
| `RingBuffer.Ring.Pop` | 3rd/skynet/skynet-src/skynet_mq.c:136-171 | takes the first entry, or finds none exactly if there is none |
| `RingBuffer.Ring.Expand` | 3rd/skynet/skynet-src/skynet_mq.c:173-186 | keeps all entries of a full buffer, in order |
| `RingBuffer.Ring.Size` | 3rd/skynet/skynet-src/skynet_mq.c:109-123 | the number of entries |
| `HandleSlots.NoCollision` | 3rd/skynet/skynet-src/skynet_handle.c:57-61 | the assertion that no two contexts meet in the doubled table holds |
| `HandleSlots.SizeDoubles` | 3rd/skynet/skynet-src/skynet_handle.c:54-65 | a table below the number of handles can be doubled without going above it |
| `HandleSlots.FullMeansMany` | 3rd/skynet/skynet-src/skynet_handle.c:41-53 | a full table has as many live handles as slots |
| `HandleStorage.Storage.Store` | 3rd/skynet/skynet-src/skynet_handle.c:43-51 | the handle is the counter plus the slots passed, modulo 2^24, and is new |
| `HandleStorage.Storage.Double` | 3rd/skynet/skynet-src/skynet_handle.c:54-65 | twice the slots, and the same live handles |
| `HandleSlots.ZeroExactly` | 3rd/skynet/skynet-src/skynet_handle.c:41-52 | the local part of the first free handle from the counter on is zero exactly when all slots from the counter to the wrap are taken and slot 0 is free |
| `HandleStorage.Storage.Register` | 3rd/skynet/skynet-src/skynet_handle.c:34-67 | ends while fewer than 2^24 handles are live, and adds exactly one new handle: the first from the counter on whose slot is free, in the table or, exactly if that is full, in one of twice the size; it is zero exactly in harbor 0 when the search wraps onto a free slot 0 |
| `HandleStorage.HandOutZero` | 3rd/skynet/skynet-src/skynet_handle.c:34-67 | a run that hands out handle 0, which the comment at line 251 reserves |
| `HandleStorage.Storage.Grab` | 3rd/skynet/skynet-src/skynet_handle.c:132-149 | finds a context exactly if its handle is live |
| `HandleStorage.Storage.Retire` | 3rd/skynet/skynet-src/skynet_handle.c:69-106 | removes exactly that handle and its names |
| `HandleStorage.Storage.DropNames` | 3rd/skynet/skynet-src/skynet_handle.c:81-92 | the loop in place leaves the other names, in order |
| `HandleStorage.Storage.Search` | 3rd/skynet/skynet-src/skynet_handle.c:159-174 | binary search finds the name, or the gap where it belongs |
| `HandleStorage.Storage.FindName` | 3rd/skynet/skynet-src/skynet_handle.c:151-179 | the one handle a name is bound to; zero exactly if it is not bound, or bound to zero |
| `HandleStorage.Storage.InsertBefore` | 3rd/skynet/skynet-src/skynet_handle.c:181-205 | inserts at a place, in the array or in one of twice the size |
| `HandleStorage.Storage.NameHandle` | 3rd/skynet/skynet-src/skynet_handle.c:207-229 | refuses exactly the names bound already, and else adds one binding; the array stays sorted and without duplicates |
| `HandleNames.WithoutMembers` | 3rd/skynet/skynet-src/skynet_handle.c:81-92 | what is left are the entries of the other handles |
| `TimerSlots.MaskIsShift` | 3rd/skynet/skynet-src/skynet_timer.c:76-86 | comparing with the low bits set is comparing the high bits |
| `TimerSlots.Stable` | 3rd/skynet/skynet-src/skynet_timer.c:115-136 | at a tick, a pending node is in the list that is moved, or already where add_node would put it, wrap included |
| `TimerSlots.DueNow` | 3rd/skynet/skynet-src/skynet_timer.c:71-90 | the near list of the present is the place of exactly the nodes that expire now |
| `TimerWheel.NearIsDue` | 3rd/skynet/skynet-src/skynet_timer.c:156-167 | that list is what is due now, in order of addition |
| `TimerWheel.ShiftStarts` | 3rd/skynet/skynet-src/skynet_timer.c:115-136 | the tick keeps every node in place, but for those of one list |
| `TimerWheel.MoveOne` | 3rd/skynet/skynet-src/skynet_timer.c:105-113 | relinking keeps the order of nodes with equal expiry |
| `TimerWheel.LevelToMove` | 3rd/skynet/skynet-src/skynet_timer.c:117-134 | the loop over the levels ends below the fifth and finds the list to move |
| `TimerWheel.Timer.AddNode` | 3rd/skynet/skynet-src/skynet_timer.c:71-90 | appends to the list of the slot, and to no other |
| `TimerWheel.Timer.Add` | 3rd/skynet/skynet-src/skynet_timer.c:92-103 | adds a node for a delay of 1 to 2^31-1 ticks |
| `TimerWheel.Timer.Shift` | 3rd/skynet/skynet-src/skynet_timer.c:115-136 | moves the clock on, with every node in the slot add_node would choose now |
| `TimerWheel.Timer.Execute` | 3rd/skynet/skynet-src/skynet_timer.c:156-167 | takes the near list of the present and empties it |
| `TimerWheel.Timer.Update` | 3rd/skynet/skynet-src/skynet_timer.c:169-182 | yields all nodes ever added for the new tick, in order of addition, and no others |
| `TimerWheel.Drive` | 3rd/skynet/skynet-src/skynet_timer.c:71-182 | in every run of additions and updates, update k yields exactly the nodes due at tick k: each once, on time, in order |
| `BigintOps.MultAdd` | 3rd/lua-cjson-master/dtoa.c:612-667 | b*m+a, in place or in a larger block, normalized; no 64-bit overflow |
| `BigintOps.I2B` | 3rd/lua-cjson-master/dtoa.c:789-803 | a number of one word |
| `BigintOps.MultRow` | 3rd/lua-cjson-master/dtoa.c:849-862 | one row adds a times a word, in place |
| `BigintOps.Mult` | 3rd/lua-cjson-master/dtoa.c:805-912 | the product, normalized; the product of zero has no word |
| `BigintOps.Pow5Cache.Get` | 3rd/lua-cjson-master/dtoa.c:931-966 | the cached power, computed as a square the first time |
| `BigintOps.P5IsPower` | 3rd/lua-cjson-master/dtoa.c:931-966 | the cached squares are the powers of five with exponent 4, 8, 16, ... |
| `BigintOps.Pow5Mult` | 3rd/lua-cjson-master/dtoa.c:917-971 | b times 5^k, with the cache extended and intact |
| `BigintOps.LShift` | 3rd/lua-cjson-master/dtoa.c:974-1031 | b times 2^k, within the words allocated |
| `BigintDivision.Cmp` | 3rd/lua-cjson-master/dtoa.c:1034-1065 | the sign of the difference |
| `BigintDivision.Diff` | 3rd/lua-cjson-master/dtoa.c:1068-1158 | the distance, normalized, and the sign flag |
| `BigintDivision.Estimate` | 3rd/lua-cjson-master/dtoa.c:2144-2156 | the quotient of the top words is never too large, and too small by one at most |
| `BigintDivision.SubMul` | 3rd/lua-cjson-master/dtoa.c:2158-2184 | the loop subtracts q times the divisor, up to what is still owed |
| `BigintDivision.QuoRem` | 3rd/lua-cjson-master/dtoa.c:2119-2241 | floor(b/S), and b mod S in place, for b < 10 S and a divisor with four leading zero bits |
| `DigitGeneration.Hi0Bits` | 3rd/lua-cjson-master/dtoa.c:707-739 | the number of leading zero bits |
| `DigitGeneration.DShift` | 3rd/lua-cjson-master/dtoa.c:2106-2117 | the shift that, with p2, leaves four leading zero bits |
| `DigitGeneration.ShiftScales` | 3rd/lua-cjson-master/dtoa.c:2106-2117 | a divisor shifted by that has its top word in [2^27, 2^28) |
| `DigitGeneration.Arrange` | 3rd/lua-cjson-master/dtoa.c:4152-4159 | numerator and divisor shifted alike, and the divisor fit for quorem |
| `DigitGeneration.Generate` | 3rd/lua-cjson-master/dtoa.c:4284-4295 | the digits and the remainder are the numerator, scaled; it stops early exactly when nothing is left |
| `DigitGeneration.RoundOff` | 3rd/lua-cjson-master/dtoa.c:4313-4320 | adds one to the digits, with the carry into the exponent when all are nines |
| `DigitGeneration.TrimDigits` | 3rd/lua-cjson-master/dtoa.c:4321-4327 | the same value without trailing zeros |
| `DigitGeneration.ChoiceRounds` | 3rd/lua-cjson-master/dtoa.c:4305-4311 | the choice at the end rounds to nearest, ties to an even last digit |
| `DigitGeneration.RoundsToOne` | 3rd/lua-cjson-master/dtoa.c:4305-4311 | rounding has one result |
| `DigitGeneration.FixedDigits` | 3rd/lua-cjson-master/dtoa.c:4284-4327 | b/S rounded to ilim significant digits, ties to even, first and last digit not zero |
| `DtoaFixed.SetUp` | 3rd/lua-cjson-master/dtoa.c:3844-3862 | the powers of two and five on both sides make the fraction the number over ten to the k |
| `DtoaFixed.Prepare` | 3rd/lua-cjson-master/dtoa.c:4102-4159 | numerator and divisor of the number over ten to the k, the divisor fit for quorem |
| `DtoaFixed.CheckEstimate` | 3rd/lua-cjson-master/dtoa.c:4160-4168 | an estimate that is one too large is corrected: the exponent is then the magnitude of the number |
| `DtoaFixed.NoDigits` | 3rd/lua-cjson-master/dtoa.c:4169-4180 | where the last place asked for is above the number, it rounds to nothing, or to a one exactly above one half |
| `DtoaFixed.Convert` | 3rd/lua-cjson-master/dtoa.c:4084-4327 | modes 2 and 3: the digits and the decimal point of b*2^e are the number rounded to ndigits significant digits, or to ndigits decimals, ties to even, without leading or trailing zeros |
| `DtoaFixed.DecimalOnce` | 3rd/lua-cjson-master/dtoa.c:4305-4327 | there is only one such decimal |
| `NetFrames.SplitConcat` | 3rd/skynet/lualib-src/lua-netpack.c:225-305 | cutting a stream anywhere makes no difference to its frames |
| `NetFrames.SplitEncode` | 3rd/skynet/lualib-src/lua-netpack.c:434-450 | packed frames are read back as they were |
| `NetPack.Filter.FindUncomplete` | 3rd/skynet/lualib-src/lua-netpack.c:90-112 | takes the one record of a connection out of its chain, and touches no other connection |
| `NetPack.Filter.Save` | 3rd/skynet/lualib-src/lua-netpack.c:167-178 | puts a record in front of its chain |
| `NetPack.Filter.CloseUncomplete` | 3rd/skynet/lualib-src/lua-netpack.c:216-223 | throws away the part of a frame of one connection, and touches nothing else |
| `NetPack.Filter.PushData` | 3rd/skynet/lualib-src/lua-netpack.c:148-165 | appends to the queue, across expand_queue |
| `NetPack.Filter.PushMore` | 3rd/skynet/lualib-src/lua-netpack.c:186-213 | queues the complete frames of a buffer and keeps the rest |
| `NetPack.Filter.FilterData` | 3rd/skynet/lualib-src/lua-netpack.c:225-305 | hands out or queues exactly the frames that are complete now, and keeps the rest; other connections are not touched |
| `NetPack.Filter.PopPacket` | 3rd/skynet/lualib-src/lua-netpack.c:394-408 | takes the first packet of the queue, or finds none exactly if there is none |
| `NetSchedule.EveryFrameOnce` | 3rd/skynet/lualib-src/lua-netpack.c:225-305 | for every schedule of chunks, closings and pops, every complete frame of a connection has been handed out or is queued, once |
| `NetSchedule.InOrder` | 3rd/skynet/lualib-src/lua-netpack.c:225-305 | they come out in order exactly when no frame of the connection overtook another |
| `NetSchedule.OvertakenExactly` | 3rd/skynet/lualib-src/lua-netpack.c:249-291 | a frame overtakes exactly where a chunk that completes one frame and leaves nothing over arrives while a frame of its connection is queued |
| `NetSchedule.ThirdFirst` | 3rd/skynet/lualib-src/lua-netpack.c:249-291 | two frames in one chunk and a third in the next come out third, first, second |
| `NetPack.Receive` | 3rd/skynet/lualib-src/lua-netpack.c:225-305 | for any interleaving of connections, any cut into chunks, any closings and any schedule of pops, the packets handed out and queued are those of the schedule: of each connection exactly its complete frames, each once, and in order if none overtook another, that is if none of its packets was queued at a direct hand-out |
| `NetPack.FramesArrive` | 3rd/skynet/lualib-src/lua-netpack.c:225-305 | the data of the packets of a connection are its complete frames, as often as they occur, and in order if none was overtaken |
| `NetPack.RoundTrip` | 3rd/skynet/lualib-src/lua-netpack.c:434-450 | so frames packed by lpack come out as they were packed, once the queue is empty and if none overtook another |
| `SendBuffer.Socket.SendList` | 3rd/skynet/skynet-src/socket_server.c:475-505 | the wire grows by exactly the bytes the kernel takes: some packages go out whole, one perhaps in part, the rest stays; wb_size drops by what was written |
| `SendBuffer.Socket.Raise` | 3rd/skynet/skynet-src/socket_server.c:584-599 | a low package that was begun moves to the high list, and no order changes |
| `SendBuffer.Socket.SendBuffers` | 3rd/skynet/skynet-src/socket_server.c:609-638 | the wire grows by exactly the bytes the kernel takes, from the high list and then from the low one, and both lists are what that leaves; no order changes and what was sent stays sent; no low package is begun on entry, and the invariant holds on return |
| `SendBuffer.BothAll` | 3rd/skynet/skynet-src/socket_server.c:609-638 | if the kernel takes all it is offered, both lists are written to the end |
| `SendBuffer.Socket.Append` | 3rd/skynet/skynet-src/socket_server.c:640-678 | appends behind the packages of its priority |
| `SendBuffer.Socket.Send` | 3rd/skynet/skynet-src/socket_server.c:692-761 | on an empty connected socket the kernel gets the package at once, and what it leaves is the high list, whatever the priority; else the package is last in the list of its priority; the wire grows by what the kernel takes and carries whole packages back to back, the last perhaps in part |
| `SendBuffer.Transmit` | 3rd/skynet/skynet-src/socket_server.c:475-761 | for every run of sends and partial writes: each wire extends the one before it, it carries whole packages back to back in the order of the line, those of a priority in the order of their submission, and wb_size is the bytes still to come |
| `SendBuffer.FixedStays` | 3rd/skynet/skynet-src/socket_server.c:601-638 | what is done or in the high list is never overtaken |
| `SendBuffer.DirectFirst` | 3rd/skynet/skynet-src/socket_server.c:684-761 | a package offered to an empty connected socket precedes every later one |
| `SendBuffer.HighFirst` | 3rd/skynet/skynet-src/socket_server.c:684-761 | a high package precedes every later one and all that wait in the low list |
| `SendBuffer.LowLast` | 3rd/skynet/skynet-src/socket_server.c:684-761 | any other low package goes behind all others |
| `SendBuffer.LowBeforeHigh` | 3rd/skynet/skynet-src/socket_server.c:684-761 | a low package that finds the socket empty comes before a high one behind it, also if the kernel takes nothing |
| `SharedIndex.InsertKeeps` | 3rd/skynet/lualib-src/lua-sharedata.c:258-265 | a colliding key in a vacant node keeps every chain linked, acyclic and complete |
| `SharedIndex.HeadOnce` | 3rd/skynet/lualib-src/lua-sharedata.c:258-265 | a chain does not return to its head |
| `SharedIndex.RoomLeft` | 3rd/skynet/lualib-src/lua-sharedata.c:250-257 | the assertion holds: a key that is not in yet finds a vacant node |
| `SharedIndex.AllFilled` | 3rd/skynet/lualib-src/lua-sharedata.c:235-270 | with all keys in, every node is filled |
| `SharedTable.CountSize` | 3rd/skynet/lualib-src/lua-sharedata.c:65-87 | the number of keys outside the array part |
| `SharedTable.Table.constructor` | 3rd/skynet/lualib-src/lua-sharedata.c:274-323 | both passes place every entry, for any hash |
| `SharedTable.Table.FillNoColliding` | 3rd/skynet/lualib-src/lua-sharedata.c:210-233 | the first pass puts one key at each main position that is wanted, and fills the array part |
| `SharedTable.Table.FillColliding` | 3rd/skynet/lualib-src/lua-sharedata.c:235-270 | the second pass places all other keys |
| `SharedTable.Table.LookupKey` | 3rd/skynet/lualib-src/lua-sharedata.c:499-528 | ends, and finds a key exactly if it is in the hash part |
| `SharedTable.Table.Index` | 3rd/skynet/lualib-src/lua-sharedata.c:530-564 | the value of a key in the source table, or nothing exactly if it has none |
| `SharedTable.Table.NextKey` | 3rd/skynet/lualib-src/lua-sharedata.c:587-644 | the first key, or the key behind a given one in the order of array and nodes |
| `SharedTable.Table.Iterate` | 3rd/skynet/lualib-src/lua-sharedata.c:587-644 | iteration from nil visits every key of the source table exactly once |
| `SeriFormat.IntTrip` | 3rd/skynet/lualib-src/lua-seri.c:140-172 | every 64-bit integer is read back from the form it was written in |
| `SeriFormat.Header` | 3rd/skynet/lualib-src/lua-seri.c:14-33 | the type and cookie that the first byte names, for each kind of value |
| `SeriFormat.ShortestInt` | 3rd/skynet/lualib-src/lua-seri.c:140-172 | no bytes that are read as an integer are fewer than those written for it |
| `SeriFormat.ShortestStr` | 3rd/skynet/lualib-src/lua-seri.c:188-211 | nor for a string |
| `SeriFormat.StrTrip` | 3rd/skynet/lualib-src/lua-seri.c:188-211 | strings of all three forms are read back |
| `SeriFormat.PairsTrip` | 3rd/skynet/lualib-src/lua-seri.c:237-255 | the nil at the end of a table is never taken for a key |
| `SeriFormat.OneTrip` | 3rd/skynet/lualib-src/lua-seri.c:294-338 | reading what was written for a value gives the value, and takes exactly its bytes |
| `SeriFormat.AllTrip` | 3rd/skynet/lualib-src/lua-seri.c:553-595 | a list of values is read back as it was |
| `SeriBlocks.WriteBlock.Push` | 3rd/skynet/lualib-src/lua-seri.c:63-83 | appends to the contents, over as many blocks as it takes |
| `SeriBlocks.WriteBlock.Seri` | 3rd/skynet/lualib-src/lua-seri.c:532-551 | the blocks in one buffer are the contents |
| `SeriBlocks.PackOne` | 3rd/skynet/lualib-src/lua-seri.c:294-338 | fails exactly where the nesting goes below the limit, and else writes the encoding |
| `SeriBlocks.PackTable` | 3rd/skynet/lualib-src/lua-seri.c:215-292 | writes size, array part, other entries and the nil |
| `SeriBlocks.ReadBlock.GetInteger` | 3rd/skynet/lualib-src/lua-seri.c:357-398 | reads an integer of each width, or rejects the stream |
| `SeriBlocks.ReadBlock.UnpackOne` | 3rd/skynet/lualib-src/lua-seri.c:521-530 | reads one value as specified, on any bytes |
| `SeriBlocks.ReadBlock.UnpackTable` | 3rd/skynet/lualib-src/lua-seri.c:432-463 | reads a table as specified, on any bytes; a key that is not a number is refused |
| `SeriBlocks.Unpack` | 3rd/skynet/lualib-src/lua-seri.c:553-595 | reads values to the end of the buffer, or rejects it |
| `SeriBlocks.PackAndUnpack` | 3rd/skynet/lualib-src/lua-seri.c:340-347 | any list of values whose nesting can be packed comes back as it was |

## Left out

- LPeg grammars, calls, captures and match-time functions, and the limit of the backtrack stack: the fragment modelled is the one without them.
- Heap allocation of code and trees in LPeg: arrays grow without failing.
- `LpegFlat.FinalFixAt`: the table of rule names and open calls, which only grammars use.
- The flow-field half of `pathfinding.c`, and negative depths or a depth of zero.
- Integer overflow of scores in the path search.
- `SchedulerRuns.OnePlace`: assumes sequential consistency, and that a 24-bit handle is not given out again while a queue of that handle exists.
- Overload counters of a message queue, the monitor, and the wake-up of sleeping workers.
- `RingBuffer.Ring.Pop`: the overload threshold that the source adjusts in the same section.
- Fairness: that the scheduler and the locks make progress under every schedule is not stated, only that they always can.
- `SchedulerProgress.EveryMessageCanSettle`: the way on is one in which callbacks return and inits succeed.
- `TimerWheel.Timer.Add`: delays of zero or less, which the caller answers without the wheel; the linked lists of the wheel are sequences.
- Floating-point parts of `dtoa.c`: the quick paths, the shortest-digit mode, `strtod`.
- `DtoaFixed.Convert`: takes the number as an integer and a power of two, and the estimate of the exponent with its flag; that the floating-point logarithm gives such an estimate is not part of the model.
- The free list of big integers: freed blocks are not reused.
- UDP, user objects and half-closed sockets in `socket_server.c`.
- `SharedTable.Table.constructor`: nested tables and the string table; keys are values of their own, integers are not truncated.
- Metatables with `__pairs` in the serializer, and values of types it refuses; the other entries of a table are a list in the order of `lua_next`.
- `SeriBlocks.ReadBlock.UnpackTable`: the result is the list of entries stored, in order; that a later entry replaces one with an equal key, and that a whole number of type double is made an integer key, is left to Lua.
- `SeriFormat.OneTrip`: byte order is little-endian and pointers have eight bytes.
- Harbor, gate and cluster messages, database codecs, JSON, ciphers, Lua itself.
