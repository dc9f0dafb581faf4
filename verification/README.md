# River-crossing search engine, modelled and verified in Dafny

This project models `FarmerLogic`, the search engine of a wolf / sheep /
cabbage river-crossing puzzle (`src/ai_algorithms.py`). A state is which bank
(0 = start, 1 = far side) each of farmer, wolf, sheep and cabbage is on. The
start is `(0,0,0,0)` and the goal is `(1,1,1,1)`. The model covers:

- `is_valid`: the safety rule;
- `get_successors`: the ordered move generator;
- `heuristic`: the A* estimate;
- the five solvers `solve_bfs`, `solve_dfs`, `solve_ucs`, `solve_ids` (with
  `dls`) and `solve_astar`.

The files follow the structure of the program:

| file | module | what it holds |
|---|---|---|
| `wrappers.dfy` | `Wrappers` | `Option`, standing for a path or Python's `None` |
| `state_space.dfy` | `StateSpace` | states, `is_valid`, `get_successors` (the loop and the function it computes), `heuristic` |
| `paths.dfy` | `Paths` | what a solution is, and the facts about the puzzle the solvers rely on: a 7-crossing solution exists, none is shorter, and a closed set of states holding the start holds the goal |
| `frontier.dfy` | `Frontier` | the `(state, path)` pairs of the queue and stack, heap entries with Python's comparison order, `heappop`, and the termination measures |
| `bfs.dfy`, `dfs.dfy` | `Bfs`, `Dfs` | the two `while` loops, each proved against a loop invariant |
| `best_first.dfy` | `BestFirst` | the loop shared by `solve_ucs` and `solve_astar` |
| `ids.dfy` | `Ids` | `dls` as a pair of mutually recursive functions, and the deepening loop |

Each solver is a method whose loop is proved against an invariant, and each
proof shows the solver never returns `None`:

- **BFS** returns a shortest solution: 7 crossings.
- **DFS** returns a solution that repeats no state.
- **UCS** returns a shortest solution.
- **A\*** returns a shortest solution: 7 crossings.
- **IDS** returns the answer of depth limit 7, the smallest limit with one.
  That answer is a shortest solution without repeats.

The heuristic can overestimate. From `(0,1,0,1)` it gives 2, yet the goal is
one crossing away, so the general A* argument does not apply and a
description of the heuristic as never overestimating does not match the code.
A*'s answer is still shortest on this puzzle. Along the known 7-crossing
solution, crossings made plus the heuristic never exceed 8, so the goal is
popped at a cost of at most 8 crossings. Because the farmer changes bank on every crossing,
a solution has an odd number of crossings, and none has fewer than 7.

## Model

| member | source | states |
|---|---|---|
| StateSpace.IsValid | src/ai_algorithms.py:16-20 | `is_valid`: neither wolf and sheep nor sheep and cabbage on one bank with the farmer on the other; its meaning is pinned down by `ValidIffSafe` |
| StateSpace.ValidIffSafe | src/ai_algorithms.py:16-20 | `is_valid` is false exactly when wolf and sheep, or sheep and cabbage, share a bank without the farmer |
| StateSpace.InitialAndGoalValid | src/ai_algorithms.py:13-14 | the start and the goal state are both valid |
| StateSpace.Crossed | src/ai_algorithms.py:29-34 | the state after a crossing: the farmer is on the other bank, item `m` has changed bank, and every other item stays put |
| StateSpace.Candidate | src/ai_algorithms.py:29-36 | one move before the validity filter: a crossing, or nothing when item `m` is on the other bank; `CandidateCarries` and `CarriesIsCandidate` relate it to the `Carries` relation |
| StateSpace.CandidateCarries | src/ai_algorithms.py:29-36 | a move that is not skipped is one legal crossing carrying item `m` |
| StateSpace.CarriesIsCandidate | src/ai_algorithms.py:29-36 | every legal crossing carrying item `m` is what move `m` produces |
| StateSpace.SuccessorsFrom | src/ai_algorithms.py:28-39 | the list after trying the first `n` moves holds at most `n` states |
| StateSpace.Successors | src/ai_algorithms.py:22-40 | the list `get_successors` returns has at most four states; `SuccessorIffMove` and `SuccessorsInMoveOrder` fix its contents and order |
| StateSpace.GetSuccessors | src/ai_algorithms.py:22-40 | the loop over moves 0..3 returns exactly the list `Successors` describes |
| StateSpace.TryMove | src/ai_algorithms.py:29-36 | one pass of the loop: the farmer flips; item `move` flips with him when it is on his bank; otherwise the move is skipped |
| StateSpace.SuccessorsValid | src/ai_algorithms.py:38-40 | every successor passes `is_valid` |
| StateSpace.SuccessorIffMove | src/ai_algorithms.py:22-40 | `t` is a successor iff `t` is valid and one crossing away: farmer flipped, at most one item moved, that item was on his bank |
| StateSpace.CandidateIsSuccessor | src/ai_algorithms.py:28-39 | a possible, valid move is never dropped |
| StateSpace.SuccessorIsCandidate | src/ai_algorithms.py:28-39 | each successor is the result of one of the four moves and is valid |
| StateSpace.SuccessorCrosses | src/ai_algorithms.py:26-30 | every successor has the farmer on the other bank, so no state is its own successor |
| StateSpace.SuccessorsInMoveOrder | src/ai_algorithms.py:25-39 | successors come alone-first, then with wolf, sheep, cabbage; none is listed twice |
| StateSpace.Heuristic | src/ai_algorithms.py:42-43 | the count of zero fields lies in 0..4 and is 0 exactly at the goal |
| StateSpace.HeuristicSum | src/ai_algorithms.py:42-43 | the heuristic equals 4 minus the sum of the four fields |
| StateSpace.HeuristicStep | src/ai_algorithms.py:42-43 | one crossing lowers the heuristic by at most 2 |
| Paths.ReachesValid | src/ai_algorithms.py:22-40 | every state on a path built from successors of the start is valid |
| Paths.KnownSolutionIsSolution | src/ai_algorithms.py:13-40 | a 7-crossing solution without repeats exists |
| Paths.MinimumMoves | src/ai_algorithms.py:13-40 | no solution has fewer than 7 crossings |
| Paths.ShortestSolutionLength | src/ai_algorithms.py:13-40 | a shortest solution has exactly 8 states |
| Paths.FarmerParity | src/ai_algorithms.py:26-30 | after `k` crossings from the start the farmer is on bank `k % 2` |
| Paths.ShortSolution | src/ai_algorithms.py:13-40 | a solution of at most 8 crossings is a shortest one, of exactly 7 |
| Paths.ClosedContainsGoal | src/ai_algorithms.py:55 | a set closed under moves that holds the start holds the goal, which is why BFS and DFS never reach their `return None` |
| Paths.HeuristicAtMostTwiceRemaining | src/ai_algorithms.py:42-43 | the heuristic is at most twice the crossings left on any path to the goal |
| Paths.HeuristicOverestimates | src/ai_algorithms.py:42-43 | at `(0,1,0,1)` the heuristic is 2 while the goal is one crossing away |
| Paths.KnownEstimate | src/ai_algorithms.py:42-43 | along the known solution, crossings made plus the heuristic never exceed 8 |
| Frontier.Without | src/ai_algorithms.py:74 | taking the popped entry out of the heap leaves one entry fewer, and the heap before is exactly what is left plus the popped entry |
| Frontier.PopMin | src/ai_algorithms.py:74 | `heappop` takes an entry that no other entry compares below in Python's tuple order |
| Frontier.MinimalHasLeastF | src/ai_algorithms.py:108 | the popped entry has the least first component (cost, or `f`) in the heap |
| Frontier.LexLessTransitive | src/ai_algorithms.py:108 | Python's list order is transitive |
| Frontier.UnseenShrinks | src/ai_algorithms.py:53 | adding a new state to a visited set or the cost map leaves fewer of the 16 states unseen |
| Frontier.CostSumLowered | src/ai_algorithms.py:78-79 | lowering a recorded cost lowers the sum of all recorded costs |
| Bfs.NewEntryShortest | src/ai_algorithms.py:51-54 | a state enqueued the first time it is seen gets a shortest path |
| Bfs.NextLevel | src/ai_algorithms.py:48-54 | once the queue moves to longer paths, every state reachable in fewer crossings has been expanded |
| Bfs.Expanded | src/ai_algorithms.py:48-54 | expanding the front pair keeps the loop invariant |
| Bfs.EnqueuedStates | src/ai_algorithms.py:51-54 | the pairs the inner loop appends hold exactly the successors not yet visited, none twice, each with the path extended by it |
| Bfs.MarkedIsUnion | src/ai_algorithms.py:52-53 | after the inner loop the visited set is the old one plus every successor |
| Bfs.EnqueueSuccessors | src/ai_algorithms.py:51-54 | the queue becomes the old queue followed by `Enqueued` (the unvisited successors' pairs, in successor order), the visited set gains every successor, and every queued path stays shortest, in length order |
| Bfs.SolveBfs | src/ai_algorithms.py:45-55 | `solve_bfs` returns a shortest solution, of 7 crossings, and never `None` |
| Dfs.TrackedChild | src/ai_algorithms.py:63-66 | a child pushed from a newly visited state has a path that reaches it, with earlier states visited and not repeated |
| Dfs.PoppedGoal | src/ai_algorithms.py:61-62 | the goal popped from the stack comes with a solution without repeats |
| Dfs.ChildrenAt | src/ai_algorithms.py:65-66 | the pairs pushed for the successors: one per successor, at its own position, with the path extended by it |
| Dfs.PushSuccessors | src/ai_algorithms.py:65-66 | the stack becomes the old stack followed by `Children` (one pair per successor, in successor order, so the last successor is popped next), and every stacked pair stays tracked |
| Dfs.SolveDfs | src/ai_algorithms.py:57-67 | `solve_dfs` returns a solution without repeated states, and never `None` |
| BestFirst.Child | src/ai_algorithms.py:111-115 | the entry pushed for a successor: one crossing more than the popped entry, priority that cost plus the estimate (plus nothing for UCS, line 80), path extended by the successor |
| BestFirst.Popped | src/ai_algorithms.py:73-75 | popping a non-goal entry keeps every other recorded state accounted for |
| BestFirst.Relax | src/ai_algorithms.py:77-80 | recording a cheaper cost and pushing the new entry keeps the invariant |
| BestFirst.Expanded | src/ai_algorithms.py:76-80 | after relaxing all successors, a state popped at its recorded cost is settled |
| BestFirst.Walk | src/ai_algorithms.py:73-80 | every solution passes a heap entry whose cost is at most that entry's position on the solution |
| BestFirst.NotExhausted | src/ai_algorithms.py:81 | the heap is never empty, so the loop never falls through to `return None` |
| BestFirst.UcsGoal | src/ai_algorithms.py:74-75 | the goal popped at least cost carries a shortest solution |
| BestFirst.AstarGoal | src/ai_algorithms.py:108-109 | the goal popped at least `f` carries a shortest solution, of 7 crossings, although the heuristic can overestimate |
| BestFirst.ProgressStep | src/ai_algorithms.py:78-80 | each push adds a new state or lowers a recorded cost |
| BestFirst.LoweredIsLeast | src/ai_algorithms.py:76-79 | after the inner loop each successor's cost is the lesser of its old cost and the popped cost plus one; other states keep theirs, and no other state is added |
| BestFirst.PushesAreChildren | src/ai_algorithms.py:76-80 | every pushed entry is the `Child` of a successor that was unrecorded or recorded at a higher cost |
| BestFirst.PushesCover | src/ai_algorithms.py:78-80 | conversely, every successor that was unrecorded or recorded at a higher cost gets an entry pushed |
| BestFirst.PushesDistinct | src/ai_algorithms.py:78-80 | no successor is pushed twice by one expansion |
| BestFirst.RelaxSuccessors | src/ai_algorithms.py:110-115 | the heap becomes the old heap followed by `Pushes` (the `Child` entries of the cheaper-reached successors, in successor order), the cost map becomes `Lowered`, and the loop invariant is kept |
| BestFirst.BestFirstSearch | src/ai_algorithms.py:100-116 | the shared loop never gives up; it returns a shortest solution, with or without the heuristic |
| BestFirst.SolveUcs | src/ai_algorithms.py:69-81 | `solve_ucs` returns a shortest solution, of 7 crossings |
| BestFirst.SolveAstar | src/ai_algorithms.py:100-116 | `solve_astar` returns a shortest solution, of 7 crossings |
| Ids.Dls | src/ai_algorithms.py:91-98 | an answer of `dls` starts with the path it was given |
| Ids.DlsChildren | src/ai_algorithms.py:94-98 | an answer of the successor loop starts with the path it was given |
| Ids.RouteIffPath | src/ai_algorithms.py:94-96 | a continuation by successors ending at the goal is the same as a path to the goal |
| Ids.FreshIffDistinct | src/ai_algorithms.py:95 | adding only states not yet on the path is the same as keeping the path free of repeats |
| Ids.DlsSound | src/ai_algorithms.py:91-98 | an answer extends the path by at most `limit` new, unrepeated states, each a successor of the one before, ending at the goal |
| Ids.DlsComplete | src/ai_algorithms.py:91-98 | if a continuation of at most `limit` new states reaches the goal, `dls` finds an answer |
| Ids.DlsFromStart | src/ai_algorithms.py:86 | from the start, `dls` answers with a solution without repeats of length at most `limit + 1` |
| Ids.DlsFinds | src/ai_algorithms.py:86 | from the start, any limit of 7 or more finds an answer |
| Ids.SolveIds | src/ai_algorithms.py:83-89 | `solve_ids` returns the answer of the smallest limit that has one (limit 7), a shortest solution without repeats, and never reaches the cut-off of 25 |

## Left out

- `FarmerApp` (src/ai_algorithms.py:122-317) is not part of this model. It holds the tkinter window, canvas drawing, message boxes and the timed playback of a path.
- `manual_move` (src/ai_algorithms.py:254-275) is not modelled. It is the same crossing rule as `get_successors`, without the validity filter, and it is tied to redrawing and dialogs.
- The `__main__` entry point and the unused `import time` are not modelled.
- The heap layout of `heapq` and the deque of `solve_bfs` are not modelled. Each frontier is a sequence. `heappop` scans for an entry no other entry compares below. Which entry comes out matches Python; how long the scan takes does not.
- Frontier.Key: a heap entry is compared as one flat list of integers. Its fields come first, then the state's four fields, then the four fields of each path state. Every state has exactly four fields, so this matches Python's tuple comparison. The model states this equivalence rather than proving it.
- BestFirst.BestFirstSearch: UCS entries `(cost, state, path)` are modelled as `(cost, cost, state, path)`. The repeated cost never decides between entries whose first fields tie, so the order is unchanged.
- Every solver's `return None`, and the `depth_limit > 25` cut-off of `solve_ids`, are proved unreachable for this puzzle. Their behaviour is written out but never runs.
- Python's integers are unbounded, and so are the model's. No width or overflow is involved.
