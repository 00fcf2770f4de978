# Search and rescue grid world, modelled in Dafny

This project models the core of a search-and-rescue grid world in Dafny. A
rescuer walks a walled map, read from text, whose cells may hold survivors
and terrain that costs more to cross. Search problems plan routes on that map.
The game then carries the plan out one move at a time and sums the terrain
costs as it goes.

The model covers:

- the direction tables and movement vectors;
- the boolean `Grid`, including its copy semantics and its 30-cells-per-word
  bit packing;
- the layout parser;
- the legal-move rules and rescue-on-arrival;
- the mission state and its successors;
- the two search problems (one survivor, all survivors);
- the null and Manhattan heuristics;
- the agent that plays a plan back.

The proofs tie these together. The main result is that the cost a search
problem assigns to a plan equals the cumulative cost the game adds up while
executing it.

Modules, one per file:

| file | module | models |
|---|---|---|
| wrappers.dfy | Wrappers | `Option` and `Result`; a `Failure` carries the message of the exception the program raises |
| geometry.dfy | Geometry | `Directions`, `Actions` vector functions, `Configuration` |
| boolgrid.dfy | BoolGrid | grid contents as values: `count`, `asList` order, `_cellIndexToPosition` |
| packing.dfy | Packing | `packBits`, `_unpackInt`, `_unpackBits`, `reconstituteGrid` as functions on values |
| grid.dfy | Grids | class `Grid`, whose list of columns is an array shared by shallow copies |
| moves.dfy | Moves | `Actions.getPossibleActions`, `Actions.getLegalNeighbors` |
| layout.dfy | Layout | class `RescueLayout` and its parser |
| rescue.dfy | Rescue | `AgentState`, `GameStateData`, `RescueRules`, `RescueState`; one move as a value-level `Step` |
| problems.dfy | Problems | `SimpleSurvivorProblem`, `MultiSurvivorProblem`, their specifications, and the theorem that plan cost equals execution cost |
| heuristics.dfy | Heuristics | `nullHeuristic`, `manhattanHeuristic`, consistency and admissibility |
| agents.dfy | Agents | `SearchAgent.registerInitialState` (the plan part) and `getAction` |

Conventions:

- Positions are integer pairs, and (0, 0) is the lower-left corner.
- A Python string direction is a constructor of `Direction`.
- A Python tuple `(x, y)` is `Pos(x, y)`.
- A grid's contents are a sequence of columns, so cell (x, y) is `c[x][y]`.
- Each operation that works step by step is a method. It is proved equal to a
  function on values, and the lemmas about those functions state what the
  program promises.

Neither the search problems nor the getters check bounds. The model therefore
assumes that the map's outer ring is all walls (`Enclosed`). Every method that
indexes a neighbour also requires its own cell to be `Interior`.

## Model

| member | source | states |
|---|---|---|
| Geometry.RightUndoesLeft | SAR/SAR/world/game.py:37-39 | `RIGHT` undoes `LEFT` and `LEFT` undoes `RIGHT` for every direction |
| Geometry.ReverseIsInvolution | SAR/SAR/world/game.py:280-289 | `REVERSE` is its own inverse, and `reverseDirection` agrees with the `REVERSE` table |
| Geometry.VectorRoundTrip | SAR/SAR/world/game.py:293-309 | `vectorToDirection(directionToVector(d)) == d` for each of the five directions |
| Geometry.SuccessorThenReverse | SAR/SAR/world/game.py:351-354 | moving in d and then in `REVERSE[d]` returns to the start; every move except Stop is one unit step |
| Geometry.GenerateSuccessor | SAR/SAR/world/game.py:80-93 | the zero vector keeps the configuration, direction included; a unit vector moves to `getSuccessor` and faces that way; the distance moved equals the vector's length |
| Geometry.StepChangesDistanceByOne | SAR/SAR/world/game.py:351-354 | one move changes the Manhattan distance to any fixed cell by at most 1 |
| BoolGrid.PositionsFacts | SAR/SAR/world/game.py:196-202 | `asList(key)` lists exactly the cells equal to key, strictly sorted by x then y, and has `count(key)` entries |
| BoolGrid.CountIsNumberOfCells | SAR/SAR/world/game.py:193-194 | `count(key)` is the number of distinct cells holding key |
| BoolGrid.CountAfterWrite | SAR/SAR/world/game.py:193-194 | after writing one cell, the count of key changes by at most one, in the direction of the write |
| BoolGrid.IndexToCell | SAR/SAR/world/game.py:223-226 | `_cellIndexToPosition` maps each index below width*height to a cell of the grid, and column-major numbering maps that cell back to the index |
| BoolGrid.CellToIndex | SAR/SAR/world/game.py:223-226 | every cell of the grid has an index below width*height, and `_cellIndexToPosition` of that index gives the cell back |
| BoolGrid.CellIndexInjective | SAR/SAR/world/game.py:223-226 | distinct cells have distinct indices, so the map is a bijection |
| Packing.PackedWordsBounded | SAR/SAR/world/game.py:204-221 | every packed word lies in [0, 2^30) |
| Packing.PackRoundTrip | SAR/SAR/world/game.py:204-259 | `reconstituteGrid(g.packBits())` gives back exactly the contents of g |
| Grids.Grid.constructor | SAR/SAR/world/game.py:140-147 | a new width by height grid, every cell equal to the initial value, with a list of columns of its own |
| Grids.Grid.Set | SAR/SAR/world/game.py:151-155 | `grid[x][y] = v` changes exactly that cell, through the shared list of columns |
| Grids.Grid.Copy | SAR/SAR/world/game.py:180-183 | `copy` gives an equal grid whose list of columns is new, so later writes to either do not reach the other |
| Grids.Grid.ShallowCopy | SAR/SAR/world/game.py:188-191 | `shallowCopy` gives a new grid object over the same list of columns |
| Grids.Grid.Count | SAR/SAR/world/game.py:193-194 | `count(key)` is the number of cells holding key |
| Grids.Grid.AsList | SAR/SAR/world/game.py:196-202 | the loop lists exactly the cells equal to key, sorted by x then y, `count(key)` of them |
| Grids.Grid.PackBits | SAR/SAR/world/game.py:204-221 | the loop yields width, height and the cells packed 30 to a word, most significant bit first, with a final word always appended; every word is below 2^30 |
| Grids.Grid.AddCell | SAR/SAR/world/game.py:213-219 | one pass of the loop adds 2^(29 - i mod 30) to the word being built exactly when cell i is set, and emits and restarts the word after every 30th cell, so the words so far are those of the first i+1 cells |
| Grids.Grid.UnpackInt | SAR/SAR/world/game.py:241-253 | `_unpackInt` raises exactly on a negative word; otherwise, for a word below 2^30, it gives the word's 30 bits, most significant first; a larger word comes out as the greedy subtraction gives it (2^30 gives 30 Trues) |
| Grids.Grid.SubtractPowers | SAR/SAR/world/game.py:244-252 | the loop subtracts 2^29, then 2^28, down to 1, wherever what is left allows, writing True for each subtraction. For a word below 2^30 this gives its 30 bits, most significant first; a larger word saturates (2^30 gives 30 Trues) |
| Grids.Grid.WriteBits | SAR/SAR/world/game.py:230-239 | the inner loop writes the bits into the next cells in index order and stops at the last cell |
| Grids.Grid.UnpackBits | SAR/SAR/world/game.py:228-239 | `_unpackBits` raises exactly when some word is negative; otherwise the cells, in index order, take the bits each word gives by greedy subtraction (its binary digits for a word below 2^30); surplus bits are ignored |
| Grids.ReconstituteGrid | SAR/SAR/world/game.py:255-259 | `reconstituteGrid` builds the grid its tuple describes, or raises on a negative word |
| Moves.PossibleActionsFacts | SAR/SAR/world/game.py:313-329 | the possible actions are exactly the directions, Stop included, whose destination is not a wall, in dictionary order; Stop is possible exactly when the own cell is open |
| Moves.GetPossibleActions | SAR/SAR/world/game.py:313-329 | the loop over the direction dictionary gives exactly those actions |
| Moves.LegalNeighboursFacts | SAR/SAR/world/game.py:333-347 | the legal neighbours are exactly the open cells at Manhattan distance at most 1, the own cell included |
| Moves.GetLegalNeighbors | SAR/SAR/world/game.py:333-347 | the loop with its bounds checks gives exactly those cells |
| Layout.TerrainCostTable | world/rescue_layout.py:36-54 | the terrain cost is always 1, 2, 3 or 5; it is 1 exactly for a character that is not `~`, `^` or `*`; and an unrecorded cell reads as '.' and costs 1 |
| Layout.RescueLayout.constructor | world/rescue_layout.py:10-20 | width is the length of the first line and height the number of lines; the grids, terrain and starts are what the text says; `totalSurvivors` is the number of 'S' cells |
| Layout.RescueLayout.ProcessLayoutText | world/rescue_layout.py:62-82 | cell (x, y) takes the character in row height-1-y, column x. Walls are the '%' cells and survivors the 'S' cells. Terrain holds the `~ ^ *` cells with their character. The start positions are the 'R' cells, sorted ascending |
| Layout.RescueLayout.ProcessRow | world/rescue_layout.py:79-81 | after row y, walls, survivors, terrain and start positions are what the text says for every row up to and including y |
| Layout.RescueLayout.ProcessLayoutChar | world/rescue_layout.py:84-102 | '%' sets a wall, 'S' a survivor, 'R' appends a start, `~ ^ *` record terrain; any other character changes nothing, and no cell falls in two categories |
| Layout.SortPositions | world/rescue_layout.py:82 | the start positions come out sorted ascending, as a permutation of the input |
| Layout.RescueLayout.IsWall | world/rescue_layout.py:22-27 | `isWall` holds exactly for the '%' cells of the text |
| Layout.RescueLayout.GetTerrain | world/rescue_layout.py:29-34 | `getTerrain` gives the cell's terrain character, or '.' for a cell without one |
| Layout.RescueLayout.GetTerrainCost | world/rescue_layout.py:36-54 | `getTerrainCost` is the cost of the character the text has at the cell, and 1 off the map |
| Layout.StartIsOpen | world/rescue_layout.py:89-98 | a start position is neither a wall nor a survivor and has no terrain, because each cell holds one character |
| Rescue.AgentState.constructor | SAR/SAR/world/game.py:101-105 | the start and current configuration are the given one, and nothing is carried or returned |
| Rescue.AgentState.Copy | SAR/SAR/world/game.py:115-120 | `copy` gives a new agent state with the same fields |
| Rescue.CopyAgentStates | SAR/SAR/world/game.py:388-392 | a new agent state for each old one, in order, with the same configuration |
| Rescue.GameStateData.Copy | SAR/SAR/world/game.py:362-376 | the copy gets a new survivor grid object over the same columns, new agent states with each one's start and configuration, and the same layout. Cost and rescues carry over; `survivorsSaved`, win and lose are reset |
| Rescue.GameStateData.Initial | SAR/SAR/world/game.py:469-480 | `initialize(layout)` gives an own copy of the layout's survivor grid, zero cost and rescues, and one agent facing Stop per start position |
| Rescue.StepFacts | world/rescue_rules.py:21-42 | `applyAction` succeeds exactly when the destination is not a wall; the rescuer then stands on the destination, and cost and lose are untouched |
| Rescue.RescueRules.GetLegalActions | world/rescue_rules.py:12-19 | the legal actions are `getPossibleActions` of the rescuer on the walls |
| Rescue.RescueRules.ApplyAction | world/rescue_rules.py:21-42 | an illegal action changes nothing and fails; a legal one moves the rescuer by the action's vector and then rescues at the new cell |
| Rescue.RescueRules.Rescue | world/rescue_rules.py:44-61 | with a survivor there, the cell is cleared in a new grid, `rescuedCount` rises by one and `survivorsSaved` records the cell. Win is set when none are left and the mission is not lost. Without a survivor, nothing changes |
| Rescue.Step | SAR/SAR/world/rescue_state.py:58-75 | a successful move leaves the rescuer on an open cell of the same map |
| Rescue.StepOutcome | SAR/SAR/world/rescue_state.py:58-75 | `generateSuccessor` fails exactly on a terminal state or a move into a wall. Otherwise the rescuer is on the destination and faces the move's direction (Stop keeps the old one); the cost rises by that cell's terrain cost; and exactly the survivor there, if any, is rescued |
| Rescue.StepCounts | world/rescue_rules.py:52-61 | a move never raises the survivor count and lowers it by at most one; rescued plus remaining is unchanged; the mission is won exactly when this move rescued the last survivor |
| Rescue.RunKeepsTotal | world/rescue_rules.py:53-56 | over any run, `rescuedCount` plus the remaining survivors stays what it was at the start |
| Rescue.Run | SAR/SAR/world/rescue_state.py:58-75 | executing a list of actions that succeeds leaves the rescuer on an open cell |
| Rescue.RescueState.Copy | SAR/SAR/world/rescue_state.py:13-18 | `RescueState(prev)` has new data copied as `GameStateData(prev)` does: as many agent states, each a new object with the same start and configuration |
| Rescue.RescueState.Initial | SAR/SAR/world/rescue_state.py:42-46 | the initial state stands on the first start position facing Stop, with the layout's survivors, cost 0 and no rescues |
| Rescue.RescueState.GetNumSurvivors | SAR/SAR/world/rescue_state.py:106-110 | `getNumSurvivors` is the number of survivor cells, and it is 0 exactly when no cell holds a survivor |
| Rescue.RescueState.GetLegalActions | SAR/SAR/world/rescue_state.py:48-56 | no actions in a won or lost state; otherwise exactly the directions whose destination is not a wall |
| Rescue.RescueState.GenerateSuccessor | SAR/SAR/world/rescue_state.py:58-75 | raises exactly when `Step` fails; otherwise it returns a new state equal to `Step`'s result and leaves the original state unchanged |
| Rescue.RescueState.MoveAndCharge | SAR/SAR/world/rescue_state.py:68-73 | applies the action to the copy, then adds the terrain cost of the rescuer's new cell |
| Problems.Replay | algorithms/problems.py:178-186 | the replay loop never leaves the interior of an enclosed map |
| Problems.ReplayIsPathSum | algorithms/problems.py:178-186 | the replay reaches the end of the path exactly when no cell entered is a wall, and then it has paid `costFn` for every cell entered |
| Problems.CostOfActionsFacts | algorithms/problems.py:171-186 | `getCostOfActions` is 999999 for None and for a plan that enters a wall, 0 for `[]`, and otherwise the sum of `costFn` over the cells entered |
| Problems.SimpleSuccessorsFacts | algorithms/problems.py:138-161 | at most four triples, in the order North, South, East, West. Each is for a non-wall cell one unit step away, at `costFn` of that cell. Every such move is listed |
| Problems.MultiSuccessorsFacts | algorithms/problems.py:216-239 | the same moves at terrain cost. Each successor grid is the parent's with only the destination cleared, so the survivor count never rises and drops by at most one |
| Problems.SimpleChainIsReplay | algorithms/problems.py:147-186 | for a plan of moves, `getCostOfActions` equals the sum of the step costs along the `getSuccessors` chain, and both end on the same cell |
| Problems.MultiChainIsReplay | algorithms/problems.py:223-254 | the same for the multi-survivor problem; the survivor count at the end of the chain is at most the starting count |
| Problems.LookupFindsIt | algorithms/problems.py:147-161 | in a list in compass order, the triple for an action is the only one |
| Problems.ExecutionCostIsPlanCost | algorithms/problems.py:104-107 | the game's cumulative cost after executing a plan equals the starting cost plus `getCostOfActions` with the default cost function; a plan that enters a wall never executes to the end |
| Problems.RunFailsExactly | SAR/SAR/world/rescue_state.py:58-75 | executing a plan stops short exactly when the path enters a wall or the plan continues from a won or lost state |
| Problems.TerrainCostsArePositive | world/rescue_layout.py:36-54 | every terrain step costs at least 1 |
| Problems.AutoGoalFacts | algorithms/problems.py:84-91 | with exactly one survivor the goal is that survivor's cell; otherwise it is the fallback |
| Problems.SimpleSurvivorProblem.constructor | algorithms/problems.py:58-119 | the walls are the map's; the start is the rescuer's position unless overridden; the goal is auto-detected; the cost function is the terrain cost unless one is given; the bookkeeping is empty |
| Problems.SimpleSurvivorProblem.IsGoalState | algorithms/problems.py:124-136 | true exactly for the goal; a goal is appended to the visited list when visualizing, and nothing else changes |
| Problems.SimpleSurvivorProblem.GetSuccessors | algorithms/problems.py:138-169 | the triples are those of the specification. `_expanded` rises by exactly one, and the state enters the visited list only the first time it is expanded |
| Problems.SimpleSurvivorProblem.GetCostOfActions | algorithms/problems.py:171-186 | the loop computes `CostOfActions` from the start state with the problem's cost function |
| Problems.MultiSurvivorProblem.constructor | algorithms/problems.py:200-208 | the start pairs the rescuer's position with the mission state's own survivor grid object; the walls are the map's; nothing is expanded yet |
| Problems.MultiSurvivorProblem.IsGoalState | algorithms/problems.py:213-214 | the goal test holds exactly when no cell of the state's grid holds a survivor |
| Problems.MultiSurvivorProblem.GetSuccessors | algorithms/problems.py:216-239 | the successors match the specification one for one: same action, destination and terrain cost, and a new grid of their own equal to the parent's with the destination cleared, no two sharing columns; the parent's grid is unchanged; `_expanded` rises by one |
| Problems.MultiSurvivorProblem.Expand | algorithms/problems.py:229-237 | a move gives a successor exactly when its destination is not a wall; the successor has a new grid of its own equal to the parent's with the destination cleared, and costs the destination's terrain cost |
| Problems.MultiSurvivorProblem.GetCostOfActions | algorithms/problems.py:241-254 | the loop computes `CostOfActions` from the start position with terrain costs |
| Problems.CopyWithout | algorithms/problems.py:234-235 | a new grid equal to the parent except that the destination cell is cleared |
| Heuristics.NullHeuristic | algorithms/heuristics.py:6-11 | the null heuristic is 0 for every state |
| Heuristics.ManhattanHeuristic | algorithms/heuristics.py:14-23 | 0 without a goal; otherwise the Manhattan distance to the goal, non-negative and 0 exactly at the goal |
| Heuristics.ManhattanIsConsistent | algorithms/heuristics.py:14-23 | with step costs of at least 1, h(s) <= stepCost + h(s') for every `getSuccessors` triple |
| Heuristics.ReplayCostCoversDistance | algorithms/problems.py:178-186 | a wall-free replay costs at least the Manhattan distance it covers |
| Heuristics.ManhattanIsAdmissible | algorithms/heuristics.py:6-23 | h(start) never exceeds `getCostOfActions` of a wall-free plan that reaches the goal |
| Agents.SearchAgent.constructor | SAR/SAR/algorithms/agents.py:20-55 | a new agent has no plan and no `actionIndex` yet |
| Agents.SearchAgent.RegisterInitialState | SAR/SAR/algorithms/agents.py:57-69 | the plan the search returned is kept, with None replaced by `[]`; `actionIndex` is untouched |
| Agents.SearchAgent.GetAction | SAR/SAR/algorithms/agents.py:79-92 | the call that finds `actionIndex` at i (0 on the first call) returns `actions[i]` while i < len(actions), and Stop afterwards; `actionIndex` becomes i + 1 |

## Left out

- Enclosed maps: `getSuccessors`, `getCostOfActions` and `getPossibleActions` index the wall grid without bounds checks. The model requires an enclosed map and an interior position instead of modelling Python's out-of-range or negative-index behaviour.
- Rescue.RescueRules.ApplyAction: reports an illegal action as `false`. The `Failure` from `GenerateSuccessor` carries "Illegal action" without the action's name.
- Rescue.GameStateData.Copy, Rescue.RescueState.Initial: the mission has at least one agent, so `agentStates[0]` is the rescuer. `_agentMoved` is not modelled because nothing in the core reads it.
- Floating point:
  - `Actions.getSuccessor` adds the float vector of `directionToVector` (default `speed=1.0`), so it returns a pair of floats equal to integers. The positions the core keeps stay integers: the rules move the rescuer with the integer `RESCUER_SPEED = 1`, and both problems apply `int(...)` after every step. The model uses integers throughout.
  - The tolerance branch of `getPossibleActions` and the `nearestPoint` test in `applyAction` are always taken the integer way, so `rescue` always runs after a move.
- Layout.RescueLayout.constructor, Layout.RescueLayout.ProcessLayoutText: the text must have at least one line, and no line may be shorter than the first (`WellFormed`). On an empty text the source raises IndexError at `len(layoutText[0])`. On a shorter line it raises IndexError at `layoutText[maxY - y][x]`. Such a line arises from the file loader's `line.strip()` when a row ends in floor spaces. These errors are not modelled.
- Moves.GetLegalNeighbors: requires the position to lie on the grid. The source rounds with `int(x + 0.5)`, which truncates toward zero, so a position with x or y equal to -1 gives the neighbours of the cell at 0 on that axis. No caller in the core passes such a position.
- Grids.ReconstituteGrid: requires a tuple of at least two entries with non-negative width and height. On a shorter tuple the source raises ValueError at `width, height = bitRep[:2]`. With a negative dimension and at least one word it raises IndexError. In the core, its only input is `packBits` output.
- Layout.SortPositions: `list.sort` is modelled as an insertion sort on a sequence that is then stored back. The result is the same sorted permutation, but the in-place algorithm is not captured.
- Problems.SimpleSurvivorProblem.constructor:
  - The `warn` printouts and the `hasSurvivor` sanity warning only print, so they are not modelled.
  - The default cost function captures the terrain map when the problem is built, because the layout's terrain does not change after parsing.
- Problems.MultiSurvivorProblem.constructor: the starting mission state is kept only as its layout, which is all `getTerrainCost` reads. The unused `heuristicInfo` cache is not modelled.
- Display: `isGoalState` draws the visited cells through `__main__._display`. This is a display side effect, so it is not modelled.
- Search functions: `depthFirstSearch`, `breadthFirstSearch`, `uniformCostSearch`, `aStarSearch` and `survivorHeuristic` are unimplemented stubs, and `tinyHouseSearch` is a fixed list. `RegisterInitialState` therefore takes the search result as a parameter.
- Agents.SearchAgent.RegisterInitialState: building the problem and printing the plan's cost and the time taken are not modelled.
- Agents.SearchAgent.constructor: choosing the search function, problem and heuristic by name (`dir`, `getattr`, `__code__`) is not modelled.
- `euclideanHeuristic`: uses a floating-point square root.
- Object protocol:
  - `__eq__`, `__hash__`, `__str__` and `deepCopy` of `Grid`, `Configuration`, `AgentState`, `GameStateData`, `RescueState` and `RescueLayout` are not modelled; the model compares contents by value instead.
  - The `Grid` constructor's rejection of a non-boolean initial value is enforced by the `bool` type.
  - `reconstituteGrid`'s pass-through of a non-tuple argument cannot arise in the typed model.
  - `Actions.directionToVector` of an unknown direction name (a `KeyError`) cannot arise either.
  - `MultiSurvivorProblem.getCostOfActions` has no `None` guard, so `None` raises TypeError, whereas `SimpleSurvivorProblem.getCostOfActions` returns 999999. The model types the multi-survivor parameter as a sequence, so that call cannot be written.
- Getters: `getSurvivors`, `getWalls`, `hasSurvivor`, `hasWall`, `getRescuerState`, `getNumAgents` and `getTerrain` of `RescueState` are field reads. The model reads the fields directly.
- File I/O, the game loop, the mission wrapper, rendering and the command line:
  - `getLayout` and `tryToLoad` read layout files.
  - `Game.run` is the game loop.
  - `rescue_mission.py` is the mission wrapper.
  - the `view` modules render the game.
  - `main.py` is the command line.
