# A* Rubik's cube solver, modelled in Dafny

This project models the core of an A* solver for the 3 x 3 Rubik's cube,
`A_star_solver.py`, and proves properties of it. The core consists of:
- the two static tables: `cube_map`, which gives the cubie owning each facelet, and `dict_cubies`, which gives the solved colours of each cubie;
- the heuristic: whether a cubie is in place (`correct_position`), whether it is turned right (`correct_orientation`), a cost table over those two answers (`moves_for_correct_cubie`), and its sum over the 20 movable cubies divided by a divisor (`heuristic`);
- the search node `AStarNode`, with its costs `g`, `h`, `f = g + h` and its re-parenting;
- the solver `AStarSolver`, with its frontier `Q`, the list `visited_nodes` of every node generated, best-node selection, successor generation over the 18 moves, the main loop, and the walk back along parent links.

Modules:
- `Options` (`options.dfy`): the `Option` type, used for Python's `None`.
- `CubeTables` (`cube_tables.dfy`): states as 6 x 3 x 3 grids, the two tables, and the facts about them that the heuristic proofs use. Those facts are which facelets belong to which cubie, and that each cubie's colours are the faces its facelets lie on.
- `CubeModel` (`cube_model.dfy`): moves, the 18 moves in the solver's loop order, solved and valid states, replaying a move list, and the finiteness of the valid states.
- `Heuristics` (`heuristics.dfy`): specification functions for "placed", "turned right", the cost table and the heuristic. It also holds the source's four procedures as methods with the source's loops, proved to compute those functions, and properties of the heuristic.
- `Search` (`search.dfy`): `AStarNode` as the class `Node` and `AStarSolver` as the class `Solver`. Their fields are updated in place and their methods keep the source's loops. `Solve` is proved to:
  - keep the generated nodes a tree rooted at the start state with pairwise distinct states;
  - terminate, given that moves keep states valid;
  - when it returns a non-empty list, return a parent-linked path whose moves lead from the start to the goal;
  - when it returns an empty list for an unsolved start, have exhausted every state reachable from the start, so that the goal is unreachable.

The cube simulator's move (`rub_cube.RubCube.rotate_90`) is not part of this model. It is the parameter `rotate` of the solver. The solved state that `solve` compares against is the parameter `goal`.

## Model

| member | source | states |
|---|---|---|
| `CubeTables.HomesAreOwned` | A_star_solver.py:41-46 | every facelet listed for a cubie in the derived `Homes` table is one `cube_map` assigns to that cubie |
| `CubeTables.FaceletsAreHomes` | A_star_solver.py:41-46 | every one of the 54 facelets is listed among the homes of the cubie `cube_map` assigns it to |
| `CubeTables.HomeOf` | A_star_solver.py:41-46 | a facelet is a home of a cubie exactly when `cube_map` assigns it to that cubie |
| `CubeTables.HomesCounts` | A_star_solver.py:35-46 | `cube_map` gives corners 0..7 three facelets, edges 8..19 two and centres 20..25 one |
| `CubeTables.SlotLocates` | A_star_solver.py:41-46 | the derived `Slots` table gives each facelet's rank among its cubie's facelets in list order |
| `CubeTables.ColoursAreHomeFaces` | A_star_solver.py:48-55 | the k-th colour `dict_cubies` lists for a cubie is the face of that cubie's k-th facelet in `cube_map` |
| `CubeModel.MoveOrder` | A_star_solver.py:199-204 | the move at loop indices (axis, layer, sense) is entry 6·axis + 3·layer + sense of the 18 moves, in the order the nested loops produce them |
| `CubeModel.ReplayStaysInClosedSet` | A_star_solver.py:224-248 | replaying moves from a set of states closed under the 18 moves never leaves that set |
| `CubeModel.ValidStatesAreFinitelyMany` | A_star_solver.py:224 | every valid state lies in one fixed finite set, which bounds the number of states the main loop can generate |
| `Heuristics.Cost` | A_star_solver.py:144-168 | corners cost at most 2 and any cubie at most 3; the cost is 0 exactly when the cubie is both placed and turned right |
| `Heuristics.TaggedAt` | A_star_solver.py:175 | when the positions tagged with a cubie are those of an ascending list, the tagged colours are the colours at those positions in order |
| `Heuristics.TaggedAtHomes` | A_star_solver.py:175 | in `list_of_pairs` the facelets tagged with a cubie are its `cube_map` facelets, in list order |
| `Heuristics.TaggedCounts` | A_star_solver.py:175 | in a full state's `list_of_pairs`, a corner is tagged 3 times, an edge 2 times and a centre once |
| `Heuristics.TaggedStep` | A_star_solver.py:132-138 | one more pair extends the tagged colours by that pair's colour when it carries the cubie |
| `Heuristics.OrientationIndexInRange` | A_star_solver.py:131-138 | the index `i` of `correct_orientation` never runs past the end of `dict_cubies[cubie]` |
| `Heuristics.TaggedPrefix` | A_star_solver.py:132-136 | the colours tagged in a prefix of the pairs are a prefix of all the tagged colours |
| `Heuristics.CorrectPosition` | A_star_solver.py:114-123 | returns true exactly when every facelet tagged with the cubie shows one of its solved colours, and true for ids outside 0..19 |
| `Heuristics.CorrectOrientation` | A_star_solver.py:127-140 | for cubies 0..19 returns whether some k-th tagged facelet shows the k-th solved colour; `None` for other ids |
| `Heuristics.MovesForCorrectCubie` | A_star_solver.py:144-168 | returns the cost-table entry for the cubie's placed and turned-right answers; `None` for ids outside 0..19 |
| `Heuristics.Heuristic` | A_star_solver.py:171-182 | returns the summed cost of cubies 0..19 divided by the divisor |
| `Heuristics.CostSumBounds` | A_star_solver.py:144-168 | the first n cubies cost at most 2 each, plus 1 more for each edge among them |
| `Heuristics.CostSumZero` | A_star_solver.py:144-179 | the summed cost is zero exactly when every cubie counted is placed and turned right |
| `Heuristics.HeuristicBounds` | A_star_solver.py:171-182 | with a positive divisor the heuristic lies between 0 and 52 / divisor |
| `Heuristics.HeuristicZero` | A_star_solver.py:171-182 | the heuristic is zero exactly when all 20 cubies are placed and turned right |
| `Heuristics.SolvedCubiesAreCorrect` | A_star_solver.py:112-140 | in the solved state every cubie is placed and turned right |
| `Heuristics.SolvedScoresZero` | A_star_solver.py:171-182 | the solved state has heuristic zero |
| `Search.Node.constructor` | A_star_solver.py:59-66 | sets every field from its argument and `f = g + h` |
| `Search.Node.CalculateCost` | A_star_solver.py:79-87 | `g` is the parent's `g` plus 1, or 1 without a parent, and `f = g + h` |
| `Search.Node.UpdateCost` | A_star_solver.py:90-91 | `g` and `f` become the cost through the current parent, which is kept; `f = g + h` holds afterwards |
| `Search.Node.UpdateParent` | A_star_solver.py:94-99 | re-parents and re-costs the node only when the candidate's `f` is strictly smaller, otherwise nothing changes; `f` never grows and `f = g + h` is kept |
| `Search.BestIsLeast` | A_star_solver.py:69-76 | the node `min` picks is `__gt__` no node of the frontier and `__lt__` every node before it, and it is the only position that is the first with the smallest `f` |
| `Search.RelaxingThroughOwnParentIsNoOp` | A_star_solver.py:94-99 | offering a node the parent it was built with gives exactly its own `f`, so `update_parent` changes nothing |
| `Search.RemoveFirstAt` | A_star_solver.py:194 | `list.remove` by state removes exactly the first node with that state |
| `Search.RemoveFirstDistinct` | A_star_solver.py:193-194 | in a frontier with distinct states, removing by the chosen node's state removes that node and keeps the rest in order |
| `Search.NewSuccessorsAreNew` | A_star_solver.py:242-246 | the successors the loop queues are successors with states that are pairwise distinct and not generated before, and with them every successor's state is generated |
| `Search.RemoveAtIndex` | A_star_solver.py:194 | removing one node keeps the states distinct and loses no other node |
| `Search.StatesOfPrefix` | A_star_solver.py:246 | the generated states only grow as nodes are appended |
| `Search.GrowthShrinksUnseen` | A_star_solver.py:224-246 | appending a node with an unseen valid state strictly shrinks the set of valid states not yet generated |
| `Search.Solver.constructor` | A_star_solver.py:106-110 | a missing `Q` or `visited_nodes` starts empty; the divisor defaults to 5 and the cube to the solved state; the other fields are set from the arguments |
| `Search.Solver.GoalScoresZero` | A_star_solver.py:220 | the goal, the state of a new cube, has heuristic 0 when it is the solved state |
| `Search.Solver.IsVisited` | A_star_solver.py:185-186 | true exactly when some generated node has the same state |
| `Search.Solver.GetBestNode` | A_star_solver.py:189-195 | `None` on an empty frontier; otherwise the first node with the smallest `f`, with the frontier left as `list.remove` leaves it |
| `Search.Solver.GetNextStates` | A_star_solver.py:197-211 | one fresh node per move in loop order, each holding the moved state, the parent, `g` one more than the parent's, the heuristic of its state and `f = g + h` |
| `Search.Solver.ParentOf` | A_star_solver.py:234-238 | in the tree of generated nodes the root is the only node without a parent, and every other node hangs one step below a generated node |
| `Search.Solver.TreeGrows` | A_star_solver.py:244-246 | appending a linked node with an unseen state keeps the generated nodes a tree with distinct states |
| `Search.Solver.FrontierGrows` | A_star_solver.py:244-246 | appending a node with an unseen state to both lists keeps the frontier among the generated nodes, with distinct states |
| `Search.Solver.ExpandedGrows` | A_star_solver.py:244-246 | queueing a new node keeps every other node outside the frontier expanded |
| `Search.Solver.PopKeeps` | A_star_solver.py:225 | taking the chosen node out of the frontier leaves it the only generated node outside the frontier that is not yet expanded |
| `Search.Solver.PathExtends` | A_star_solver.py:235-238 | putting the current node in front of the collected nodes extends the path up to its parent |
| `Search.Solver.TraceBack` | A_star_solver.py:233-238 | the walk back is empty exactly for the root; otherwise it is the parent-linked path from the root's child to the goal node, whose moves lead from the start to the goal |
| `Search.Solver.Visit` | A_star_solver.py:243-248 | a successor with an unseen state is appended to both `Q` and `visited_nodes` and nothing else changes; otherwise `update_parent` leaves it unchanged and both lists stay as they were; the tree and frontier invariants are kept |
| `Search.Solver.AllSuccessorsSeen` | A_star_solver.py:241-242 | once the states of all 18 successors are generated, the node is expanded |
| `Search.Solver.VisitSuccessors` | A_star_solver.py:242-248 | the loop over the successors appends to both `Q` and `visited_nodes` exactly the successors whose states are not yet generated, in the order of the successor list, leaves the successors themselves unchanged, and keeps the invariants |
| `Search.Solver.Expand` | A_star_solver.py:240-248 | expanding a popped non-goal node generates its 18 successors in loop order, appends to both lists exactly those with states not yet generated, in that order, and leaves every generated node outside the frontier expanded |
| `Search.Solver.PopBest` | A_star_solver.py:225 | popping takes out the first node of the frontier with the smallest `f`, keeps the others in order, and leaves that node the only generated one not yet expanded |
| `Search.Solver.Advance` | A_star_solver.py:228-248 | after the pop, a node at the goal ends the loop with the walk back and no change to the lists; any other node has its 18 successors generated and the unseen ones appended to both lists, in order |
| `Search.Solver.SearchStep` | A_star_solver.py:224-248 | one pass of the main loop pops the first node of least `f`, sets the cube to its state, ends exactly when that state is the goal, and otherwise appends the successors with unseen states, in move order, to the rest of the frontier and to `visited_nodes`; either the generated states grow or the frontier shrinks |
| `Search.Solver.ExhaustedMeansUnreachable` | A_star_solver.py:224-250 | when the frontier runs out, no sequence of the 18 moves leads from the start to the goal |
| `Search.Solver.Solve` | A_star_solver.py:213-250 | terminates; a non-empty result is a path whose moves lead from the start to the goal; a solved start gives `[]` with only the root generated; `[]` for an unsolved start means the frontier ran out and the goal is unreachable |

## Left out

- The cube simulator (`rub_cube`), the rendering modules, `main`, the input prompts, the random scrambles and timing, and every `print` are not part of this model. `rotate_90` is the parameter `rotate`, and the solved state `RubCube(3).get_State()` is the parameter `goal`.
- `set_State`/`get_State` copies of the simulator's cube are modelled as plain values: the solver's `cube` is the state itself.
- `heuristic` divides with floating point, so `h`, `f = g + h` (`__init__` and `calculate_cost`) and the comparisons of `f` in `min` and `update_parent` are floating-point in the source; the model uses exact reals throughout. Where rounding makes two `f` values equal or unequal differently, the source may pick a different node from the frontier or re-parent differently than the model. A divisor of 0 (a `ZeroDivisionError` in the source) is excluded by a precondition.
- The `rotation` of a node is a one-element list of a tuple in the source; the model stores the move itself.
- `Search.Solver.Solve`: proved only for a solver built with empty `Q` and `visited_nodes` (the default) and a valid start state, and termination assumes that `rotate` maps valid states to valid states. Nothing is proved for a solver built with pre-filled lists.
- `Search.Solver.Solve`: does not claim the returned path is shortest. The heuristic is divided by a tuning divisor and the search re-parents nodes without re-queueing them, so the source does not promise optimality.
- The body of the main loop of `solve` is split into the methods `SearchStep`, `PopBest`, `Advance`, `Expand`, `VisitSuccessors`, `Visit` and `TraceBack`, which follow the source's statements in order; no behaviour is lost by the split.
- States that are not 6 x 3 x 3 grids are not modelled. `zip` in `heuristic` would silently truncate them; the model's `Pairs` requires the full shape.
- `__lt__` and `__gt__` are modelled (`Node.Less`, `Node.Greater`), but the search does not use them: `min` with a key compares `f` directly.
- The default `cube` of `AStarSolver` is one `RubCube(3)` object shared by every solver built without a cube, as Python evaluates defaults once; the model's default is the solved state `goal` as a value, so that sharing is not modelled.
- `goal` is a parameter of the solver; the model does not require it to be the solved state, and `GoalScoresZero` states what holds when it is.
