# Maze searching algorithms, modelled in Dafny

The repository holds three SDL2 programs built on the same 49x49 maze of
`u8` cells. The cell states are 0 open, 1 wall, 2 visited and 3 dead. The
start is (1, 1) and the goal is (47, 47).

- `create_maze` (the same code in all three programs) starts from an all-wall
  grid. It opens the start and carves a randomised depth-first "recursive
  backtracker" that jumps two cells at a time and opens the cell in between.
  It then re-opens the start and the goal and walls the outer ring.
- `solve_maze_step_by_step` (src/main.rs and normal_search/src/main.rs) is a
  recursive depth-first solver. It marks the cell it enters visited, tries
  Up, Right, Down and Left, and marks the cell dead when all four fail.
- The "quantum" solver (quantum_search/src/main.rs) runs agents. In every
  frame each agent asks `check_available_moves` for the open, unvisited
  neighbours that are not on its own path. An agent with none is removed
  and its cell is marked dead. An agent with one takes it. An agent with
  several takes the last one and sends a clone along each of the others.
  A clone's id is `agents.len() + new_agents.len()` at the moment it is
  queued. Removals shrink `agents.len()`, so two agents can end up with the
  same id. Every entered cell is marked visited. The first agent found on
  the goal wins, and its path is the solution.

The model has five modules:

- `MazeGrid` (grid.dfy) holds the grid. The maze is an `array2<u8>` indexed
  `[y, x]` like `maze[y][x]`. Every specification reads it through the
  value view `Cells`, in which a cell outside the matrix reads as a wall.
- `Generator` (generator.dfy) models `create_maze` and `carve`.
  `dirs.shuffle(&mut rng)` is replaced by an oracle `shuffles: nat -> Shuffle`
  that gives one permutation of the four step vectors per call. Every
  property holds for every oracle.
- `DepthFirst` (dfs_solver.dfy) models the recursive solver. The ghost
  functions `Explore` and `Probe` define the search on grid values. The
  method `Solve` on the matrix is proved to compute `Explore`.
- `Branching` (branching.dfy) models `Agent`, `check_available_moves`,
  `move_agent` and one pass of the agent loop. The ghost functions `Act`
  (one agent's turn) and `Round` (the rest of a pass) define the pass on
  grid values. The methods `Advance` and `Tick` on the matrix are proved
  to compute them.
- `Simulation` (program.dfy) models the two `main` programs: the solve run
  once on the first Return, and the frame loop of the agent search, bounded
  by a number of frames.

Main results:

- `create_maze` always connects every open cell, the goal included, to the
  start. It walls the ring,
  opens every odd/odd lattice junction, keeps every even/even pillar walled
  and writes only 0 and 1.
- The depth-first solver tries Up, Right, Down, Left and stops at the
  first success. It succeeds exactly when the goal is reachable. On
  success its visited cells are a simple open walk from the start to the
  goal and every other changed cell is dead. On failure every changed cell
  is dead and walled in.
- So the solver run on a fresh maze from (1, 1) always succeeds.
- `check_available_moves` returns exactly the available directions, in the
  order Up, Down, Right, Left. Its `wrapping_sub` probes are modelled on
  64-bit `usize`.
- One pass of the agent loop yields exactly the agent list, winner and grid
  that `Round` defines. Of that result it is proved that it:
  - keeps the walls;
  - changes only non-wall cells, each of which ends dead, or visited and
    entered in this pass; every entered cell was open, and no cell is
    entered twice;
  - finds a winner exactly when some agent stood on the goal, and the
    winner is the first such agent;
  - leaves every surviving agent one step longer than an agent it came
    from (or left in place after the winning break).
- Over any number of frames, a winner's path is a simple 4-connected walk
  from the start to the goal. On a generated maze it runs through open
  cells.

## Model

| member | source | states |
|---|---|---|
| MazeGrid.Set | quantum_search/src/main.rs:226 | the grid after one cell write: that cell holds the new value, every other cell is unchanged |
| MazeGrid.CellsAt | quantum_search/src/main.rs:136 | reading `maze[y][x]` inside the grid reads the cell (x, y) of the grid's value |
| MazeGrid.Write | quantum_search/src/main.rs:226 | a cell write `maze[y][x] = v` changes that one cell of the grid's value and nothing else |
| MazeGrid.ReachableTrans | src/main.rs:49-52 | two open walks that meet join into one: reachability is transitive |
| MazeGrid.ReachableStep | src/main.rs:50-51 | two open 4-neighbours reach each other |
| MazeGrid.ReachableKept | src/main.rs:49-52 | reachability survives any change that closes no open cell |
| MazeGrid.OpenPathKept | src/main.rs:49-52 | an open walk stays open while no open cell is closed |
| Generator.OnlyOpensShrinksWalls | src/main.rs:49-52 | a grid change that only opens cells never adds a wall cell (the carve termination measure) |
| Generator.OnlyOpensTrans | src/main.rs:49-52 | "only opens cells" composes across successive carve calls |
| Generator.OnlyOpensKeepsOpen | src/main.rs:49-52 | carving never closes an open cell |
| Generator.SaturatedKept | src/main.rs:41-55 | once every in-ring step target of a cell is non-wall, later carving keeps it so |
| Generator.DoneKept | src/main.rs:41-55 | the directions already tried by the carve loop stay done while carving continues |
| Generator.DoneNext | src/main.rs:45-54 | a direction whose target is outside the ring, or is no longer a wall, counts as done |
| Generator.AllStepsDone | src/main.rs:37-41 | after the loop over a shuffled `dirs`, every one of the four step vectors has been tried |
| Generator.StepKeepsParity | src/main.rs:42-52 | a step of two cells keeps the odd/odd junction lattice and the even/even pillar lattice |
| Generator.CarveStep | src/main.rs:49-52 | opening the target and the cell between, then the recursive carve, only opens interior non-pillar cells, each reachable from the caller's cell, and leaves the target open |
| Generator.OpeningShrinks | src/main.rs:49-52 | opening a wall target strictly shrinks the set of wall cells, so the recursion terminates |
| Generator.CarveStepDone | src/main.rs:41-55 | one carving step keeps the loop's bookkeeping and marks that direction done |
| Generator.Carve | normal_search/src/main.rs:44-66 | `carve(x, y, maze)` only opens interior non-pillar cells, leaves every in-ring step target of (x, y) and of each junction it opened non-wall, and from an open (x, y) reaches every cell it opened |
| Generator.LatticeFilled | normal_search/src/main.rs:68-70 | when every non-wall junction has all its in-ring step targets non-wall, every interior junction is non-wall (induction over the lattice from the start) |
| Generator.CarvedFromStart | normal_search/src/main.rs:68-70 | carving an all-wall grid from an opened start leaves only 0/1 cells, a walled ring, every junction open, every pillar walled, and every open cell (the goal among them) reachable from the start |
| Generator.Ringed | normal_search/src/main.rs:77-82 | after i rounds of the border loop, exactly the ring cells with index below i are walls and every other cell is unchanged |
| Generator.RingedNone | normal_search/src/main.rs:77-82 | before the border loop nothing is walled by it |
| Generator.RingStep | normal_search/src/main.rs:77-82 | one round of the border loop walls the four ring cells of index i |
| Generator.WallBorder | quantum_search/src/main.rs:75-80 | the border loop leaves the grid with its whole outer ring walled and everything else unchanged |
| Generator.FinalGrid | quantum_search/src/main.rs:70-80 | re-opening the start and goal and re-walling the ring change nothing a carve from the start produced |
| Generator.CreateMaze | quantum_search/src/main.rs:38-83 | `create_maze()` returns a fresh 49x49 grid satisfying `Generated`: ring walled, start and goal open, only 0/1 cells, junctions open, pillars walled, every open cell (the goal among them) reachable from the start |
| DepthFirst.RelabelsShrinksOpen | src/main.rs:160 | the solver's writes never add an open cell (its termination measure) |
| DepthFirst.RelabelsTrans | src/main.rs:152-178 | relabelling open cells to visited or dead composes across calls |
| DepthFirst.ExhaustedTrans | src/main.rs:166-175 | two failed searches in a row form one failed search: all changed cells dead and walled in |
| DepthFirst.WalkStaysChanged | src/main.rs:177-178 | every cell of an open walk from a failed start was changed by the search |
| DepthFirst.FailedUnreachable | src/main.rs:177-182 | a `false` return means the goal was not reachable from the start through open cells |
| DepthFirst.OpenPathEarlier | src/main.rs:170-173 | an open walk of a later grid was an open walk before the solver ran |
| DepthFirst.Explore | src/main.rs:139-183 | the search as a function of the grid: an out-of-grid or non-open cell fails unchanged, the goal is marked visited and succeeds, any other cell is marked visited, its neighbours are tried Up, Right, Down, Left until one succeeds, and it is marked dead if none does; it only relabels open cells to visited or dead |
| DepthFirst.Probe | src/main.rs:165-175 | the neighbour loop from the k-th direction on: a negative coordinate is skipped, the first success returns with the current cell prefixed to the walk, later neighbours are not tried; it only relabels open cells |
| DepthFirst.VisitShrinksOpen | src/main.rs:160 | marking an open cell visited relabels it and strictly shrinks the set of open cells (the recursion's measure) |
| DepthFirst.DeadRelabels | src/main.rs:178 | marking the entered cell dead after its neighbours fail is still a relabelling of open cells |
| DepthFirst.ExploreSolved | src/main.rs:139-183 | the search satisfies `Solved` from every cell of every grid: it succeeds exactly when the goal is reachable through open cells; on success the visited cells are a simple open walk from the start to the goal and other changed cells are dead; on failure every changed cell is dead and walled in; a non-open start fails and changes nothing |
| DepthFirst.SecondSearchFails | src/main.rs:146-148 | a second search from the same cell, on the grid the first left, returns false at once and changes nothing, because the first search left that cell not open; so a second solve from (1, 1) fails |
| DepthFirst.ProbeSolved | src/main.rs:165-175 | the neighbour loop from the k-th direction, with the earlier neighbours closed, either finds a simple open walk from the cell to the goal or leaves every change dead and walled in and all four neighbours closed |
| DepthFirst.NeighbourSolved | src/main.rs:169-174 | the same for a neighbour with nonnegative coordinates, by the recursive call's `Solved` |
| DepthFirst.ProbeHit | src/main.rs:171-172 | a successful recursive call makes the loop succeed with the current cell prefixed to the child's walk |
| DepthFirst.ProbeMiss | src/main.rs:169-174 | a failed recursive call keeps the failed-search bookkeeping, closes that neighbour and shrinks the open cells |
| DepthFirst.ExploreOpen | src/main.rs:159-182 | for an open cell other than the goal, the search is: mark it visited, run the neighbour loop, and mark it dead when the loop fails |
| DepthFirst.ProbeNext | src/main.rs:169-174 | one loop step: the neighbour's search succeeding ends the loop with the cell prefixed, failing continues with the next direction on the grid it left |
| DepthFirst.ProbeSkip | src/main.rs:170 | a neighbour with a negative coordinate is skipped |
| DepthFirst.Solve | src/main.rs:139-183 | `solve_maze_step_by_step` on the matrix computes `Explore` of the grid it starts from: same result, same final grid |
| DepthFirst.TryNeighbours | src/main.rs:165-175 | the `for (dx, dy) in dirs` loop computes `Probe` from the first direction, and returns an empty walk when every neighbour fails |
| DepthFirst.CloseNext | normal_search/src/main.rs:151-161 | after trying the k-th neighbour without success it is no longer open |
| DepthFirst.SuccessStep | normal_search/src/main.rs:157-158 | a successful descent prefixes the current cell to the child's walk and keeps it simple and open |
| DepthFirst.DeadKeepsEnclosed | normal_search/src/main.rs:164 | marking a cell dead opens no neighbour |
| DepthFirst.FailureStep | normal_search/src/main.rs:163-168 | after all four neighbours fail, marking the cell dead makes the whole call a failed, walled-in search |
| Branching.Rank | quantum_search/src/main.rs:128-133 | each direction has its own place in the probing order Up, Down, Right, Left |
| Branching.Filter | quantum_search/src/main.rs:135-139 | keeps exactly the available directions of a list, and keeps an increasing list increasing |
| Branching.IncreasingCons | quantum_search/src/main.rs:135-139 | pushing in probing order keeps the list ordered |
| Branching.AvailableMoves | quantum_search/src/main.rs:124-142 | the moves offered are exactly the in-grid, open neighbours not on the agent's path, in probing order, at most four |
| Branching.TailIn | quantum_search/src/main.rs:128-139 | past a shared head, every later member of one ordered direction list is a later member of the other |
| Branching.IncreasingUnique | quantum_search/src/main.rs:128-139 | two ordered direction lists with the same members are equal |
| Branching.WrappingSub1 | quantum_search/src/main.rs:129 | `wrapping_sub(1)` on a `usize` lands inside the grid exactly when the operand is 1 to 49 (0 wraps to `usize::MAX`) |
| Branching.CheckAvailableMoves | quantum_search/src/main.rs:124-142 | the loop over the four probes returns exactly the available moves in probing order |
| Branching.MoveAgent | quantum_search/src/main.rs:144-152 | `move_agent` moves one cell towards the direction, appends the new cell to the path, keeps the old path and the id |
| Branching.MoveKeepsWellFormed | quantum_search/src/main.rs:144-152 | an available move keeps an agent's path a simple 4-connected walk ending at its position, onto an open cell not yet on it |
| Branching.Destinations | quantum_search/src/main.rs:232-244 | the cells the fork's moves enter, one per direction |
| Branching.Spawned | quantum_search/src/main.rs:237-243 | the clone sent along the j-th direction is the moved agent with id `idBase + j` |
| Branching.SpawnedPrefix | quantum_search/src/main.rs:237-243 | the clones of the first j+1 directions are those of the first j plus one |
| Branching.MarkStep | quantum_search/src/main.rs:241 | marking one more destination visited extends the marked set by it |
| Branching.MarkAll | quantum_search/src/main.rs:235-248 | marking the entered cells one after another leaves exactly those cells visited and every other cell unchanged |
| Branching.MarkedUnique | quantum_search/src/main.rs:235-248 | the grid after marking is determined by the cells marked |
| Branching.SendCopies | quantum_search/src/main.rs:237-244 | every direction but the last sends a numbered clone and marks its cell visited |
| Branching.Fork | quantum_search/src/main.rs:231-245 | at a junction the agent takes the last direction, one clone takes each other, and every entered cell is marked visited |
| Branching.OfferedLegal | quantum_search/src/main.rs:136-147 | every move `check_available_moves` offers can be taken by `move_agent` without underflow and stays in the grid |
| Branching.Act | quantum_search/src/main.rs:225-250 | one agent's turn on a grid value: the turned grid is again a 49x49 grid |
| Branching.ActTurn | quantum_search/src/main.rs:225-250 | `Act` is a turn as `Turn` describes it: no move kills the agent and marks its cell dead; otherwise it takes the last move, a numbered clone takes each other one, and exactly the entered cells become visited |
| Branching.TurnAct | quantum_search/src/main.rs:225-250 | any outcome meeting `Turn` is the outcome `Act` computes |
| Branching.Advance | quantum_search/src/main.rs:225-250 | one agent's turn on the matrix computes `Act`: the same survivor, clones and final grid |
| Branching.DestinationsDistinct | quantum_search/src/main.rs:231-245 | the cells one fork enters are all different |
| Branching.DeadKeepsTrace | quantum_search/src/main.rs:225-229 | killing an agent keeps the pass invariant: changed cells are dead or entered-and-visited |
| Branching.EnterKeepsTrace | quantum_search/src/main.rs:246-250 | entering a fresh open cell keeps the pass invariant |
| Branching.DestinationsOpen | quantum_search/src/main.rs:231-245 | every cell a fork enters was open at the start of the pass |
| Branching.AdvanceKeepsTrace | quantum_search/src/main.rs:225-250 | one agent's turn keeps the pass invariant: no cell is entered twice and only entered cells become visited |
| Branching.InitialAgents | quantum_search/src/main.rs:195 | the search starts with one agent on the start, path [start], id 0 |
| Branching.GrownJoin | quantum_search/src/main.rs:236-255 | survivors and newborns grown from the old agents stay so when joined |
| Branching.SurvivorsGrown | quantum_search/src/main.rs:231-245 | the moved agent and its clones each extend the old agent by one entered cell |
| Branching.GrownCons | quantum_search/src/main.rs:236 | one more grown agent keeps the list grown |
| Branching.OneGrown | quantum_search/src/main.rs:246-249 | a single moved agent extends the old one by the entered cell |
| Branching.TurnKeepsTick | quantum_search/src/main.rs:225-250 | one agent's turn, whatever its outcome, keeps the pass's growth invariant |
| Branching.RemoveAt | quantum_search/src/main.rs:227 | `agents.remove(i)` leaves the agents handled so far followed by the unvisited rest |
| Branching.ReplaceAt | quantum_search/src/main.rs:236 | `agents[i] = agent` replaces the current agent and keeps the unvisited rest |
| Branching.NextPlaced | quantum_search/src/main.rs:215-255 | agents grown over the pass stand on non-wall cells with well-formed paths |
| Branching.PassDead | quantum_search/src/main.rs:225-228 | removing a dead agent advances the pass invariant |
| Branching.PassMove | quantum_search/src/main.rs:231-252 | moving an agent and appending its clones advances the pass invariant |
| Branching.PassEnd | quantum_search/src/main.rs:253-255 | a pass that visits every agent has no winner, and every agent it hands on is an old agent one step further on a cell entered this pass |
| Branching.PassWin | quantum_search/src/main.rs:219-223 | a pass broken at an agent on the goal returns that first agent's path |
| Branching.RoundTurn | quantum_search/src/main.rs:225-252 | the rest of a pass after the first agent's turn: a dead agent leaves the list, a survivor joins the visited agents and its clones join the queue |
| Branching.RoundTurnAt | quantum_search/src/main.rs:225-252 | the same step stated for the `o`-th agent of the pass, with clone ids from `idBase` = the list length plus the clones queued |
| Branching.ActStep | quantum_search/src/main.rs:225-250 | a turn taken by `Act` keeps the pass's trace, and whoever it leaves alive grew by a cell entered |
| Branching.RoundStep | quantum_search/src/main.rs:225-252 | one agent's turn keeps the pass invariant and leaves the rest of the pass unchanged |
| Branching.RoundEnd | quantum_search/src/main.rs:253-255 | a pass that ran out of agents satisfies `Ticked` |
| Branching.RoundWin | quantum_search/src/main.rs:219-223 | a pass stopped by an agent on the goal satisfies `Ticked` |
| Branching.RoundPass | quantum_search/src/main.rs:213-255 | the rest of a pass, from any point that keeps the pass invariant, satisfies `Ticked` |
| Branching.RoundTicked | quantum_search/src/main.rs:213-255 | a whole pass as `Round` defines it, whatever list, winner and grid it leads to, satisfies `Ticked`: winner exactly when some agent is on the goal, the first one's path; only dead cells and entered cells now visited change; each agent handed on is well-formed on a non-wall cell and an old agent grown by one entered cell (or left in place after the winning break) |
| Branching.VisitStep | quantum_search/src/main.rs:225-252 | after the `o`-th agent's turn, `agents.remove(i)` or `agents[i] = agent` leaves the visited agents followed by the unvisited rest, and the rest of the pass is unchanged |
| Branching.Visit | quantum_search/src/main.rs:225-252 | one iteration of the agent loop for an agent not on the goal: its turn is `Act` with clone ids from `agents.len() + new_agents.len()`; the dead agent is removed or the agent replaced by its survivor, clones are queued, the index moves past a survivor, and the rest of the pass `Round` defines is unchanged |
| Branching.Round | quantum_search/src/main.rs:213-255 | the reference definition of the rest of one frame on grid values, its result again a 49x49 grid: with no agent left it hands on the visited agents then the queued clones, with no winner; a first remaining agent on the goal ends the frame with `done + rest + born` and that agent's path as winner; any other agent takes its turn `Act` with clone ids from `idBase` equal to the lengths of `done`, `rest` and `born` added up (the source's `agents.len() + new_agents.len()`), a dead agent leaves the list, a survivor joins the visited agents and its clones are queued to be appended at the end |
| Branching.VisitAll | quantum_search/src/main.rs:213-253 | the `while i < agents.len()` loop on the matrix computes `Round` from the start of the frame: the same agent list (clones appended), winner and final grid |
| Branching.Tick | quantum_search/src/main.rs:213-255 | one frame computes `Round` exactly: the next agent list, the winner and the final grid; so it satisfies `Ticked`: a winner exactly when some agent stands on the goal, namely the first one's path; every cell change is a dead cell or an entered cell now visited; each next agent is well-formed on a non-wall cell and an old agent grown by one entered cell (or left in place after the winning break) |
| Simulation.GenerateAndSolve | normal_search/src/main.rs:190-211 | the maze generated satisfies `Generated`; the solver started at (1, 1) on it computes `Explore`, only relabels open cells, always returns true, and its visited cells form a simple open walk of the generated maze from the start to the goal |
| Simulation.FirstExists | quantum_search/src/main.rs:215-223 | if some agent stands on the goal, the loop meets a first one |
| Simulation.TickKeepsRooted | quantum_search/src/main.rs:213-255 | a frame keeps the walls, keeps every agent's path rooted at the start and off the walls, and its winner's path is a simple walk from the start to the goal |
| Simulation.Search | quantum_search/src/main.rs:198-262 | the frame loop until a winner: walls never change and a winner's path is a simple 4-connected walk from the start to the goal over non-wall cells of the initial grid |
| Simulation.GenerateAndSearch | quantum_search/src/main.rs:194-262 | the maze generated satisfies `Generated`, the search keeps its walls, and a winner's path is a simple open walk from the start to the goal of the generated maze |

## Left out

- Drawing and pacing are left out: SDL2 window, canvas and colours, `draw_maze`, `draw_solution_path`, `canvas.present`, `std::thread::sleep`, `println!` and the printed maze. They do not affect the grid.
- The event loop is reduced to its effect. Escape, the only event the loops end on (a window-close event is ignored), becomes the `frames` bound of `Simulation.Search`. In the depth-first programs the `solving` flag lets the solve run once, so `Simulation.GenerateAndSolve` runs it once.
- After a winner is found, the source only redraws the solution. `Simulation.Search` stops instead. No state changes in those frames.
- `thread_rng` and `shuffle` are replaced by the oracle `shuffles`. The distribution of mazes is not modelled, only properties that hold for every shuffle.
- Uniqueness of paths (that the maze is a perfect maze, a spanning tree of the lattice) is not proved. Only connectivity (every open cell is reachable from the start) and the lattice shape are.
- The `Player` struct and its `(47, 47)` "you win" check are left out. No code moves the player, so the check never fires.
- The `Direction` enum of the depth-first programs is never used and is left out. So is the commented-out code (`check_avaliable_move`, `move`, the early return in the quantum `carve`, `new.path.pop()`).
- Branching.CheckAvailableMoves: requires both coordinates below `usize::MAX`, because `py + 1` and `px + 1` would overflow there. Every agent in the search stands inside the grid, so this always holds.
- Branching.MoveAgent: requires that an Up move has y > 0 and a Left move has x > 0, where the source's `-= 1` would underflow. Only available moves are taken, and they always satisfy this. The Down and Right `+= 1` (quantum_search/src/main.rs:147-148) would overflow at `usize::MAX`; positions are unbounded `nat`s here, and every taken move lands inside the grid, so that case never arises.
- Branching.Tick: agent ids are modelled as `|cur| + |born| + j`, the source's `agents.len() + new_agents.len()` at each push. That ids are unique is not claimed, and the source does not keep them unique: removals shrink `agents.len()`.
- Branching.Tick: `Vec<Agent>` with `clone()` is modelled as a sequence of `Agent` values. Only `maze` is updated in place.
- Branching.Tick: the loop body is split into the methods `Visit`, `Advance`, `Fork` and `SendCopies`. The order of reads and writes inside one agent's turn is kept. That includes computing the moves before the goal check.
- Simulation.Search: does not claim that a winner is eventually found (liveness). Only what holds of a winner, whenever there is one, is proved.
- DepthFirst.Solve: the drawing and sleeping between writes are left out. The recursion depth and stack use of the source are not modelled.
