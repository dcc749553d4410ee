# evo — a verified model of the simulation core

evo is a browser cellular-life simulator. A rectangular grid holds cells:
empty cells, walls, organic matter, plants and organisms. Each organism
carries a genome that maps what it sees in front of it to an action. Every
tick of the game first grows plants on some empty cells. It then walks the
grid once, lets each non-static cell update itself in place, and counts the
step.

This project models that core in Dafny:

- `options.dfy` (`Options`): the `Option` datatype.
- `genomes.dfy` (`Genomes`): the genome of `src/simulation/cell/type/organism/genome.ts`.
  - Its reflex table has one key per `Target`.
  - `compare` and `isSimilar` are modelled.
  - `clone` is modelled with its single possible mutation, and `createRandom` as well.
  - `MUTATION_POWER` is the constant 5.
- `cells.dfy` (`Cells`): the cell variants and the defaults of `src/game/cell.ts`.
  - A variant's `isStatic` and `isEmpty` take its override where it has one, and the base default otherwise. Which variants override is assumed, because their classes are not part of this model.
- `decisions.dfy` (`Decisions`): `Genome.getAction`.
  - It classifies the target cell.
  - An organism that can divide is forced to divide onto an empty target.
  - Otherwise the organism follows its reflex, and a `DIVIDE` reflex is refused while division is impossible.
- `grids.dfy` (`Grids`): `src/simulation/grid.ts`.
  - Class `Grid` keeps the cell, mineral and light columns and the id index as fields that its methods update.
  - The pure transitions `InsertAt`, `DeleteAt`, `SetLightAt` and `SetMineralsAt` on a `World` value are what those methods are proved against.
- `games.dfy` (`Games`): `src/game/game.ts`.
  - Class `Game` holds the step counter and a grid.
  - `GeneratePlants` and `Update` are loops over the grid, proved against the functions `Seed` and `Tick`.
  - `Tick` is the plant phase followed by `UpdatePass`, a left fold of visits over `ScanOrder`. A visit reads the cell at its position at that moment.
  - `Tick` also returns the log of `(x, y, cell)` update calls.

Inputs the source reads from the environment become parameters:

- Each `randomInt(a, b)` draw is an integer parameter in `a..b`. Both ends are included.
- Each `Math.random()` draw is a real parameter in `[0, 1)`.
- `randomAction()` is an action parameter.
- The per-position outcome `Math.random() < chance` of `generatePlants` is the function `grows(x, y)`.
- The `update` method of a concrete cell variant is the parameter `act`. It yields the grid calls the cell makes from the grid it sees and its position. `Lawful` requires those calls to stay inside the grid.

Three facts about the code shape the model. The second and third rest on assumptions about files outside this model, listed under "## Left out":

- **The grid index.** `insert` (src/simulation/grid.ts:60-64) overwrites a position without unregistering the occupant it replaces, so the id index is not kept in step with the array. The invariant the code does keep is `IndexKeyed`: id 0 is never a key, and every entry is stored under its own cell's id. The lemma `Grids.InsertLeavesStaleEntry` shows the stronger agreement `InSync` failing after one insert.
- **Plants as targets.** Provided the plant class is not a subclass of `WallCell`, `OrganicCell` or `OrganismCell`, a plant target falls into `getAction`'s final EMPTY branch (src/simulation/cell/type/organism/genome.ts:33-41).
- **Cells met again in one pass.** The model takes the grid's iteration to read each position when it reaches it. A cell that moves forward in scan order during its own update is met again at its new position and updated a second time in the same tick. No position is visited twice, but under that reading a cell can be updated twice. `Games.MovedCellUpdatedTwice` shows this on a 1-by-2 grid. An iteration that took a snapshot of the cells first would not behave this way.

## Model

| member | source | states |
|---|---|---|
| Genomes.IsSimilar | src/simulation/cell/type/organism/genome.ts:56-62 | with `compare` always 0, a genome is similar to any other exactly when its similarity limit is at most 0 |
| Genomes.Clone | src/simulation/cell/type/organism/genome.ts:64-91 | every target key is present in the copy. At most one of the seven genome components changes. The scalars move by -5, 0 or +5. No mutation happens when the chance does not exceed the draw. Parameter 0 moves only the mutation chance. Parameter 1 moves only the similarity limit. Parameters 2..7 replace only the reflex of the drawn key with the drawn action |
| Genomes.CreateRandom | src/simulation/cell/type/organism/genome.ts:93-105 | every target gets its drawn action. Both scalars are the floor of draw*100, so they lie in 0..99 |
| Decisions.Classify | src/simulation/cell/type/organism/genome.ts:31-41 | each target category holds exactly when the cell is of that kind. Organisms split on `isSimilar`. EMPTY covers empty cells and plants |
| Decisions.GetAction | src/simulation/cell/type/organism/genome.ts:28-54 | with energy above 60 and an EMPTY target, the result is DIVIDE. Without enough energy it is never DIVIDE. Otherwise it is the reflex for the target. A missing reflex gives NOTHING. A DIVIDE reflex gives DIVIDE exactly when division is possible |
| Decisions.DividesOntoEmptyWithEnergy70 | src/simulation/cell/type/organism/genome.ts:43-45 | an organism with energy 70 facing an empty cell divides, whatever its genome |
| Decisions.FollowsWallReflexWithEnergy40 | src/simulation/cell/type/organism/genome.ts:47-53 | an organism with energy 40 facing a wall returns its WALL reflex when that reflex is not DIVIDE |
| Cells.IsStatic | src/game/cell.ts:11-13 | a variant without an override inherits `true`. Under the assumed override table, the cell is static exactly when it is neither organic matter nor an organism |
| Cells.IsEmpty | src/game/cell.ts:15-17 | a variant without an override inherits `false`. Under the assumed override table, only the empty cell reports empty |
| Cells.Serialize | src/simulation/grid.ts:98 | a cell's descriptor carries its id, and its kind tag names exactly the cell's variant |
| Grids.Register | src/simulation/grid.ts:62-64 | a cell with a truthy id is found under that id afterwards. A cell with id 0 leaves the index as it was. No other id changes. Entries stay keyed by their own ids |
| Grids.Unregister | src/simulation/grid.ts:68-70 | the removed cell's id is no longer found. No other id changes. Entries stay keyed by their own ids |
| Grids.InsertAt | src/simulation/grid.ts:54-65 | the position holds the new cell. Every other position, and the mineral and light levels, are unchanged. The index registers the new cell under its id when that id is truthy |
| Grids.DeleteAt | src/simulation/grid.ts:67-71 | the position becomes empty. Every other position and the levels are unchanged. The index drops the previous occupant's id |
| Grids.SetLightAt | src/simulation/grid.ts:46-48 | only the light level at (x, y) changes, to the given level |
| Grids.SetMineralsAt | src/simulation/grid.ts:50-52 | only the mineral level at (x, y) changes, to the given level |
| Grids.CountEmpty | src/game/game.ts:16-18 | the count is 0 exactly when no position holds a cell reporting `isEmpty()` |
| Grids.InsertLeavesStaleEntry | src/simulation/grid.ts:60-64 | inserting a plant over an indexed organism leaves the organism findable by id, so the index is no longer in sync with occupancy |
| Grids.FindAfterInsert | src/simulation/grid.ts:62-64 | after inserting a cell with a truthy id, `find` of that id returns the cell |
| Grids.Grid.constructor | src/simulation/grid.ts:16-36 | a width-by-height grid, every cell empty, every mineral and light level 100, the index empty |
| Grids.Grid.SetLightLevel | src/simulation/grid.ts:46-48 | the new state is `SetLightAt` of the old. `getLightLevel` returns the level that was set |
| Grids.Grid.SetMineralsLevel | src/simulation/grid.ts:50-52 | the new state is `SetMineralsAt` of the old. `getMineralsLevel` returns the level that was set |
| Grids.Grid.Insert | src/simulation/grid.ts:54-65 | the new state is `InsertAt` of the old. `getCell` returns the inserted cell |
| Grids.Grid.Delete | src/simulation/grid.ts:67-71 | the new state is `DeleteAt` of the old. The position is empty and the old occupant's id is no longer found |
| Grids.Grid.ToArray | src/simulation/grid.ts:93-95 | a width-by-height snapshot whose entry [x][y] is `getCell(x, y)` |
| Grids.Grid.Serialize | src/simulation/grid.ts:97-99 | a width-by-height table whose entry [x][y] is the descriptor of `getCell(x, y)` |
| Games.Seed | src/game/game.ts:15-29 | with no empty cell nothing changes. Otherwise an empty cell whose draw succeeds becomes a plant, and every other cell is unchanged |
| Games.PlantedAtMostEmpty | src/game/game.ts:16-28 | one plant generation inserts no more plants than there were empty cells |
| Games.SeedAccounts | src/game/game.ts:24-28 | the empty cells left plus the plants inserted are the empty cells before |
| Games.Game.GeneratePlants | src/game/game.ts:15-29 | the new grid state is `PlantWorld` of the old. The number of inserts is 0 when the grid had no empty cell and the success count otherwise. It is at most the empty count, and it equals the drop in the empty count |
| Games.ScanOrder | src/game/game.ts:34 | the iteration visits width*height positions, all inside the grid |
| Games.ScanOrderIsLexicographic | src/game/game.ts:34 | the iteration order is strictly increasing, x first, and visits every position of the grid |
| Games.UpdatePass | src/game/game.ts:34-40 | the pass keeps the world well formed. Every update call it makes is on a non-static cell at a visited position |
| Games.PassVisits | src/game/game.ts:34-40 | the converse: when the k-th visit finds a non-static occupant, that occupant's call at that position is among the pass's calls. A static occupant is skipped and the visit changes nothing |
| Games.PassCallsExtend | src/game/game.ts:34-40 | the calls made over the first k positions are a prefix of the calls of the whole pass |
| Games.MovedCellUpdatedTwice | src/game/game.ts:34-40 | on a 1-by-2 grid, an organism that moves from (0, 0) to (0, 1) gets two update calls in one tick |
| Games.CallsInScanOrder | src/game/game.ts:34-40 | the update calls of one tick happen in strictly increasing scan order, so no position is updated twice in one pass |
| Games.InheritedStaticNeverUpdated | src/game/game.ts:35 | a tick never calls `update` on a cell whose `isStatic()` holds |
| Games.BaseUpdateChangesNothing | src/game/cell.ts:7-9 | the inherited `update` makes no grid call, so it leaves the grid exactly as it was. This follows directly from `CellUpdate` |
| Games.Game.constructor | src/game/game.ts:7-13 | a new game is at step 0 on a fresh grid of the given size with every cell empty |
| Games.Game.Update | src/game/game.ts:31-43 | the step counter grows by one. The new grid state and the update calls are those of `Tick`: plants first, then the in-place pass in scan order |

## Left out

- `getStep`, `getGrid`, `getLoopMode`, `getWidth` and `getHeight`: plain getters. They are modelled as `GetStep`, the field `grid` and the constant fields `loop`, `width` and `height`, and they have no contract of their own.
- `getLightLevel`, `getMineralsLevel`, `getCell` and `find`: modelled as the functions `GetLightLevel`, `GetMineralsLevel`, `GetCell` and `Find`. Their properties are stated by the setters and by `Insert` and `Delete`.
- The grid module of `src/game/grid.ts` that game.ts uses is not part of this model. Class `Grids.Grid` plays it. Its iteration order (x outer, y inner) and its `countEmpty` are assumed.
- The plant chance `countEmpty / cellCount / 100` is floating-point arithmetic. It is left out: only the per-position outcome `grows(x, y)` is modelled.
- `Math.random`, `randomInt` and `randomAction` are I/O. They become parameters, with the ranges the calls give.
- Light and mineral levels are reals. JavaScript's floating point and `NaN` are not modelled.
- `Grids.Grid.Delete`, `Grids.Grid.SetLightLevel`, `Grids.Grid.SetMineralsLevel` and `Grids.Grid.GetCell` require the position to be inside the grid. The source does not check bounds in these calls, and what JavaScript then does is not modelled:
  - with x out of range, all four throw a `TypeError`;
  - with only y out of range, `delete` first writes a fresh empty cell past the end of the column and then throws at `getId()` on `undefined`;
  - with only y out of range, `setLightLevel` and `setMineralsLevel` store the level in a new slot past the end of the column;
  - with only y out of range, `getCell` returns `undefined`.
- Assumptions about classes outside this model, which the contracts depend on:
  - The iteration of `src/game/grid.ts` reads each cell when its position is reached, not from a snapshot taken first. `Games.UpdatePass`, `Games.Tick` and `Games.MovedCellUpdatedTwice` depend on this.
  - Only organisms have a truthy `getId()`: `Cells.Id` is 0 for every other variant. So `Games.PlantWorld`, and with it `Games.Game.GeneratePlants`, leaves the index untouched.
  - The plant class is an instance of none of `WallCell`, `OrganicCell` and `OrganismCell`. So `Decisions.Classify` puts a plant under EMPTY.
- `Cells.Organism`: energy is taken to be an integer. `getEnergy()` returns a JavaScript number, and a fractional energy strictly between 60 and 61 makes division possible in the source (src/simulation/cell/type/organism/genome.ts:29). The model cannot represent that case.
- Cells are values. Aliasing of one cell object at two positions, and a cell mutating its own fields inside `update`, are not modelled. Only the grid calls a cell makes are.
- The bodies of the concrete variants' `update` methods, `CellContext`, neighbour resolution and the wrap-around of the loop mode are outside this core. They enter only as the parameter `act`.
- `OrganismAction` is reduced to `Nothing`, `Divide` and `Other(code)`. The remaining actions are not distinguished.
- `Cells.StaticOverride`, `Cells.EmptyOverride` and `Cells.OverridesUpdate` are assumed values. The concrete variant classes are not part of this model; only the base defaults of src/game/cell.ts:7-17 are. The model takes organic matter and organisms as non-static cells that override `update`, the empty cell as the only one reporting empty, and walls and plants as inheriting every default. This table decides which cells a tick updates.
- `Organism.isSimilar` is assumed to delegate to the genome's `isSimilar`. The organism cell file is not part of this model.
- `Cells.Serialize`: the `CellType` layout of `src/simulation/types/cells.ts` is not part of this model. The descriptor is reduced to a kind and an id.
- `Genomes.Compare` is the stub the source has: it always returns 0.
- Event emission, the cell factory, the renderer and the user interface are outside the simulation core.
