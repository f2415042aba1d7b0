# Multi-car racing engine, modelled in Dafny

This project models the simulation engine of a grid racing environment. Several cars drive
around an annular track of grid cells. They collect a reward of 5 each time they reach their
next checkpoint group, and a car is done when it has passed every group. The model covers
five parts:

- **track generation** (`create_track_and_checkpoints`): the annulus, the filtered checkpoint
  groups and the start line;
- **construction and reset** of `MultiCarRacing`;
- **the step**: cooldowns, unit moves, off-track rejection, collisions, checkpoint scoring,
  lap completion and the done flags;
- **the observation encoder** (`get_observation`);
- **the `Car` record** of `agent.py`.

Modules, one per concern:

| file | module | what it holds |
|---|---|---|
| `cells.dfy` | `Cells` | cells `(x, y)`, grids indexed `[x][y]`, `Option` |
| `track.dfy` | `Track` | the track loops as methods, with the functions and predicates that specify them |
| `agent.dfy` | `Agent` | the `Car` class and `CarState`, the value of its fields |
| `observation.dfy` | `Observation` | the code of every cell of an agent's view, and the whole grid |
| `transition.dfy` | `Transition` | the step as functions on values, one per loop of the source, and the lemmas about them |
| `environment.dfy` | `Environment` | the `MultiCarRacing` class; its methods run the loops and are proved equal to those functions |

The engine is a class. `agents` is an array of car records indexed by agent id, which stands
for the dictionary keyed `0 .. n - 1`. `rewards` and `dones` are optional sequences, because
the source only creates those attributes in `reset`. The step's nested loops become methods
(`MoveAgent`, `CollideAll`, `ScoreAgent`, `ScoreAll`, `RunIteration`, `RunAll`). Each is proved
to compute one function of `Transition`, and the properties of the step are proved about
those functions.

## Behaviour worth knowing

The model keeps the following behaviours of the code exactly as written.

- **Only the mover reverts on a collision** (`environment.py:161-165`). When the moving car's
  intended cell equals another car's, the mover goes back to the cell it stood on and both cars
  get cooldown 2. The other car keeps its intended cell. Earlier movers have already committed,
  so that cell is the other car's current one. Two cars wanting the same free cell are
  therefore decided by id order: car 0 takes it and car 1 bounces (`Transition.MoveRules`,
  `Transition.FirstMoverWins`).
- **The scoring loop runs inside the movement loop.** The scoring loop
  (`environment.py:169-180`) is nested in the movement loop (`environment.py:136`). Each car's
  move is committed and scored before the next car moves. Every car is scored once per
  movement-loop iteration, and that includes the iteration of a done car that does not move.
  This has three consequences:
  - a car on a cell shared by consecutive groups passes two checkpoints in one step
    (`Transition.RepeatedScoring`);
  - the observations a step returns show later movers at their old cells
    (`Transition.ScoringView`, `Transition.StaleObservation`);
  - cars that are already done are still scored (`Transition.ScoreLoopFacts`).
- **`reset` keeps `reward`.** The engine's `reset` (`environment.py:114-119`) clears the
  counters and the done flag but leaves each car's `reward` and `observation` as they were
  (`Environment.MultiCarRacing.Reset`).
- **`agent_id` holds a cell.** The engine builds each car with its start cell
  (`environment.py:95-96`), so the car's `agent_id` field holds a cell
  (`Environment.SeedCars`).
- **The viewer and its teammate share code 2** (`environment.py:322-327`). A viewer cannot tell
  its own cell from its teammate's (`Observation.TeamCode`, `Observation.AgentCell`).

## Model

| member | source | states |
|---|---|---|
| Track.CreateTrack | environment.py:24-33 | the track holds exactly the in-grid cells whose distance to (g//2, g//2) lies in [outer - width, outer), outer = g//2 - 2, compared on squared integers |
| Track.Kept | environment.py:50-61 | definition: the cells of one strip that are inside the grid and on the track, in strip order |
| Track.KeptMembers | environment.py:50-61 | a cell is in a filtered strip iff it is in the strip, inside the grid and on the track |
| Track.KeptShorter | environment.py:50-61 | filtering never lengthens a strip |
| Track.FilterStrip | environment.py:50-61 | the loop's group is the strip's in-grid track cells, in strip order |
| Track.Groups | environment.py:37-64 | definition: one filtered strip per candidate strip, in strip order, with the empty ones dropped |
| Track.GroupsWellFormed | environment.py:60-64 | there are at most as many groups as strips, no group is empty, and every grouped cell is an in-grid track cell |
| Track.GroupsMembers | environment.py:63-64 | a group is kept iff it is the non-empty filtered form of some strip; empty groups are dropped |
| Track.GroupsInOrder | environment.py:37-64 | the groups keep the strips' order: group k is the filtered form of the k-th strip whose filtered form is non-empty, and a strip's index appears iff its filtered form is non-empty |
| Track.StartLineDistinct | environment.py:69-71 | start-line cells are pairwise distinct |
| Track.CreateStartLine | environment.py:67-71 | the start line is exactly the track cells in column g//2 with y >= g//2, in ascending y |
| Track.WithStartLine | environment.py:73-75 | definition: the start line is appended to the last group, and nothing changes when there are no groups |
| Track.CreateTrackAndCheckpoints | environment.py:19-77 | track, groups and start line as above, with the start line appended to the last group, so every start-line cell is in the last group |
| Agent.Car.constructor | agent.py:4-10 | `agent_id` is the argument, the position is (0, 0), the counters and reward are 0, done is false, and there is no observation |
| Agent.Car.Reset | agent.py:12-18 | position and observation are the arguments, the counters and reward are 0, done is false, and only `agent_id` is kept; the new state depends only on the arguments and `agent_id`, so a second identical call changes nothing |
| Observation.TeamCode | environment.py:321-330 | definition: 2 for the viewer itself and for an agent with the same id // 2, otherwise 3 |
| Observation.CellCode | environment.py:313-330 | definition: the track layer (1 or 0), overwritten by the code of each agent on the cell, in id order |
| Observation.Observe | environment.py:312-332 | definition: the g by g grid of cell codes, indexed [x][y] |
| Observation.ObserveCells | environment.py:312-332 | the grid is g by g and cell [x][y] holds the code of (x, y) |
| Observation.UnoccupiedCell | environment.py:313-317 | a cell no agent is on holds 1 if it is on the track and 0 otherwise |
| Observation.LastWriterWins | environment.py:319-330 | an occupied cell holds the team code of the highest-numbered agent on it |
| Observation.CodeRange | environment.py:313-330 | codes lie in 0..3, and a code of 2 or more marks exactly the occupied cells |
| Observation.AgentCell | environment.py:319-327 | with agents on distinct cells, each agent's cell holds its own code, and the viewer sees itself as 2 |
| Transition.Target | environment.py:146-155 | definition: action 0 steps to x - 1, 1 to x + 1, 2 to y + 1, 3 to y - 1, and any other action stays |
| Transition.Wanted | environment.py:157-158 | definition: the target if it is a track cell, else the car's own cell |
| Transition.Collide | environment.py:161-165 | the collision loop over cars 0 .. j - 1; it changes neither the done flags nor the failure flag |
| Transition.Move | environment.py:137-165 | the movement-loop body for car k, up to its collision loop; it leaves the done flags as they are |
| Transition.ScoreAt | environment.py:169-180 | one pass of the scoring loop for car j; it keeps the number of cars |
| Transition.Score | environment.py:169-180 | the scoring loop over cars 0 .. j - 1; it keeps the number of cars |
| Transition.Iteration | environment.py:136-180 | one movement-loop iteration: the move of car k, then the whole scoring loop unless the move failed |
| Transition.Iterate | environment.py:136-180 | the movement loop over cars 0 .. k - 1, stopping at the first missing action |
| Transition.ScoreCar | environment.py:170-178 | one checkpoint test keeps the counter inside the groups, adds reward only in multiples of 5 and never clears done |
| Transition.NotFinished | environment.py:173-178 | a car more than one group short of the last cannot become done in one checkpoint test |
| Transition.CollideHit | environment.py:161-165 | a mover whose first clash is with car o is sent back to its cell, and both cars get cooldown 2; the other car's intended cell is untouched |
| Transition.CollideQuiet | environment.py:161-165 | a mover whose intended cell no other car intends leaves the collision loop unchanged |
| Transition.CollideFrame | environment.py:161-165 | the collision loop changes only cooldowns (to 2) and the mover's intended cell (back to its own cell) |
| Transition.MoveRules | environment.py:137-165 | for cars on pairwise distinct cells: a done car does nothing; a missing action aborts; a cooling car loses one tick of cooldown and stays; otherwise actions 0-3 step left, right, forward or back, any other action stays, an off-track target stays, and a target another car holds sends the mover back with cooldown 2 for both |
| Transition.MoveFrame | environment.py:136-165 | a move leaves the others' intended cells alone, keeps the mover's on the track, changes only cooldowns, and keeps them in 0..2 |
| Transition.MoveSeparates | environment.py:133-165 | from pairwise distinct cells, a move leaves pairwise distinct intended cells |
| Transition.Bystander | environment.py:136-165 | on distinct cells, a car whose cell the mover does not want keeps its record and its intended cell |
| Transition.ScoreAtFacts | environment.py:169-180 | one scoring pass commits car j's intended cell, scores it, gives it a fresh observation, copies its done flag, and changes no other car |
| Transition.ScoreFacts | environment.py:169-180 | the scoring loop over cars 0..j-1 scores each of them at its intended cell, leaves later cars alone and keeps every cooldown |
| Transition.ScoreLoopFacts | environment.py:169-180 | the whole scoring loop scores every car at its intended cell and gives it a fresh observation |
| Transition.ScoreSettles | environment.py:169-180 | later scoring passes leave an earlier car as its own pass left it |
| Transition.ScoringView | environment.py:169-179 | car j's observation shows cars up to j at their committed cells and later cars where they were before the loop |
| Transition.IterationCar | environment.py:136-180 | after one movement-loop iteration each car is on the track with its counter in range, cooldown in 0..2, done flag copied and an observation; it has lost no reward or done flag, and a car that was done has not moved |
| Transition.IterationApart | environment.py:133-180 | cars on distinct cells stay on distinct cells through an iteration |
| Transition.IterationKeeps | environment.py:136-180 | an iteration keeps the step invariant (on track, counters and cooldowns in range, flags in sync), progress and separation |
| Transition.IterationFails | environment.py:137-140 | an iteration aborts exactly when its car is not done and has no action |
| Transition.Outcome | environment.py:126-180 | definition: the movement loop over every car, from intended cells equal to the current positions |
| Transition.StepKeeps | environment.py:126-180 | the movement loop keeps the step invariant, rewards never fall, done is never cleared, done cars stay put, and distinct cells stay distinct |
| Transition.EarlierRan | environment.py:136-140 | once an action is missing the step stops for good, so a step that got through car m got through every earlier car |
| Transition.ActionsSuffice | environment.py:136-140 | an action for every car that is not done at the start of the step is enough to avoid the missing-action abort |
| Transition.FirstIteration | environment.py:136-180 | with two cars, when car 0 heads for a cell car 1 does not hold, car 0 is scored at that cell and car 1 where it stands, with cooldowns unchanged |
| Transition.FirstMoverWins | environment.py:161-165 | when two cars want the same free cell, car 0 moves first and takes it, car 1 bounces and stays, and both get cooldown 2 |
| Transition.RepeatedScoring | environment.py:168-178 | a car standing on a cell shared by groups c and c + 1 passes both in one two-car step: its counter rises by 2 and its reward by 10 |
| Transition.SecondMoveUnseen | environment.py:161-179 | when car 1 moves to a free cell, car 0 stays put and its observation shows both cars where they stood before car 1 moved |
| Transition.StaleObservation | environment.py:169-179 | when car 1 moves in the second iteration, car 0's returned grid still shows car 1 on its old cell (code 2) and the new cell as bare track |
| Environment.StartCell | environment.py:95 | an agent's start cell lies on the start line |
| Environment.StartCellsApart | environment.py:94-95 | with no more agents than start-line cells, no two agents start on the same cell |
| Environment.SeedCars | environment.py:93-96 | agent i is a new car whose `agent_id` is start_line[i mod len(start_line)] |
| Environment.MultiCarRacing.constructor | environment.py:80-96 | builds the track, groups and start line as `create_track_and_checkpoints` specifies and seeds the agents as above; rewards and dones do not exist yet |
| Environment.MultiCarRacing.GetObservation | environment.py:312-332 | array cell [x, y] holds the code of (x, y) for the agents' current cells |
| Environment.MultiCarRacing.ObservationGrid | environment.py:312-332 | the observation array, read as a grid, is `Observe` of the current positions |
| Environment.MultiCarRacing.PlaceAgents | environment.py:114-119 | agent i moves to start_line[i mod len], its counters and cooldown become 0 and done becomes false; its reward and observation stay |
| Environment.MultiCarRacing.Reset | environment.py:112-124 | the placement above, rewards all 0, dones all false, every agent's view returned, reward not cleared, and the agents on distinct cells when the start line is long enough |
| Environment.MultiCarRacing.ObserveAll | environment.py:124 | the returned views are, in id order, each agent's `Observe` of the current positions |
| Environment.MultiCarRacing.CollideAll | environment.py:161-165 | the collision loop computes `Collide` |
| Environment.MultiCarRacing.MoveAgent | environment.py:137-165 | the movement-loop body computes `Move` |
| Environment.MultiCarRacing.ScoreAgent | environment.py:170-180 | one scoring pass computes `ScoreAt` |
| Environment.MultiCarRacing.ScoreAll | environment.py:169-180 | the scoring loop computes `Score` |
| Environment.MultiCarRacing.RunIteration | environment.py:136-180 | one movement-loop iteration computes `Iteration` |
| Environment.MultiCarRacing.RunAll | environment.py:133-180 | the movement loop computes `Outcome` |
| Environment.MultiCarRacing.Report | environment.py:182-188 | the returned observations and rewards are each agent's stored observation and cumulative reward, in id order |
| Environment.MultiCarRacing.Step | environment.py:126-190 | the new cars and done flags are the `Outcome` of the step; the observations, cumulative rewards and done flags are returned; counters stay in range; no reward falls and no done flag is cleared; done cars do not move; cars on distinct cells stay on distinct cells |

## Left out

- Rendering, window handling and the pygame setup (`environment.py:103-109` and `192-310`):
  drawing only.
- `main.py`: a driver loop with random actions and printing.
- The angular strip placement in `create_track_and_checkpoints` (`environment.py:36-58`):
  radians, sine and cosine, the 0.707 threshold and `int()` truncation are floating-point
  work.
  - The cells each strip proposes are an input, `strips`, with one strip per checkpoint.
  - `num_checkpoints == 0` divides by zero at line 36, so it is excluded by a precondition.
- Track.CreateTrack: `math.sqrt` is replaced by an exact comparison of squared integer
  distances. This assumes the floating-point square root never rounds across an integer
  radius.
- `action_space`, `observation_space`, `render_mode` and the empty `infos` mapping: they are
  declarative and never read by the engine.
- The default arguments of `MultiCarRacing.__init__` (`environment.py:80`: four cars, a 30-cell
  grid, track width 5 and 12 checkpoints) are not modelled. Every argument is a parameter of
  the constructor, because the strips have to be supplied anyway.
- `grid_rows` and `grid_columns` are always equal, so they are one `gridSize`. A negative grid
  size is not modelled.
- Environment.MultiCarRacing.Step requires that no action is missing. In the source, a missing
  action for a car that is not done at its turn raises `KeyError` at line 140, after earlier
  cars have already moved and been scored; that partly updated state is not modelled. The
  `failed` flag of the transition functions marks the abort, and `Transition.ActionsSuffice`
  shows that an action for every car not done at the start is enough.
- Environment.MultiCarRacing.Step also requires the crash-free setting of the source:
  - `reset` has run, since `self.dones` is created there;
  - the checkpoint list is non-empty whenever there are agents; otherwise line 172 raises
    `IndexError`.
- Environment.MultiCarRacing.constructor requires a non-empty start line whenever there are
  agents; otherwise `agent_id % len(self.start_line)` at line 95 divides by zero.
- Transition.ScoreCar is total. A checkpoint counter outside the groups leaves the car as it
  is. In the source, a counter of at least `len(checkpoints)` raises `IndexError` at line 172,
  and a negative counter indexes the groups from the end. Neither state is reachable:
  `StepKeeps` keeps every counter in range.
- Transition.MoveRules describes a move only for cars on pairwise distinct cells. Cars share
  cells when there are more cars than start-line cells, because `reset` puts them on
  `start_line[i % len]` (line 115). For such cars, the collision loop also fires against a car
  on the mover's own cell; for example, a cooling car is set back to cooldown 2 instead of
  losing one tick. `Transition.Move` models that case as the code runs it, but no lemma spells
  out its rules.
- Environment.MultiCarRacing.Step returns the engine's done flags as a copy. In the source, the
  returned dictionary is the engine's own `self.dones` object, so later steps alter it.
- Observations are numpy arrays in the source.
  - `GetObservation` fills a Dafny `array2` and requires every agent and track cell to lie in
    the grid, which the engine's invariant guarantees after `reset`.
  - The array is stored in the car records as a grid value.
  - numpy's wrap-around for negative indices is not modelled.
- The engine's `reset` assigns car fields directly and never calls `Car.reset`. Both are
  modelled, separately.
