# Harvest grid engine in Dafny

This project models the grid-update engine of the Harvest environment from the
sequential-social-dilemma games: the `HarvestEnv` class (`social_dilemmas/envs/harvest.py`)
and the two windowing helpers it uses from `MapEnv` (`return_view` and `pad_matrix` in
`social_dilemmas/envs/map_env.py`).

The engine keeps one grid, `self.map`. `MapEnv.__init__` (map_env.py:35) makes it a numpy
float array of zeros. `reset_map` (harvest.py:80) replaces it with a character array over the
alphabet `' '`, `'@'`, `'A'`, `'P'` and `'F'`. No character can be written into the float
array: numpy raises `ValueError`. The model keeps a flag `charMap` for which array is in
place. While it is false the grid is all zeros, shown as all `Empty`, and every operation
whose first write would raise returns the fault `NumericMap` with the state untouched.
`reset_map` itself raises `IndexError` on a base map with no rows (the fault `NoRows`).

The engine also keeps these lists:

- the layout lists `spawn_points`, `apple_points` and `wall_points`;
- `firing_points` (the beam cells of the previous tick), `hidden_apples` and
  `hidden_agents` (what a beam covered);
- `reserved_slots` (pending `'A'`, `'F'` and `'P'` writes).

Each tick it:

1. cleans up the last beam;
2. turns agent actions into reservations, new orientations or beams;
3. commits apple and beam reservations;
4. draws apple regrowth from a table keyed by how many apples lie within two cells.

## Modules

- `Board` (board.dfy): the cell alphabet, positions, reservations, orientations and
  value grids. It also holds the folds `Set`, `Paint` (write one value into listed cells)
  and `Masked` (the listed cells that held a given value).
- `Window` (window.dfy): `pad_matrix` and `return_view` as pure functions.
  - numpy's constant `0` is the value `Pad`.
  - Python slicing is modelled literally: negative starts wrap around, and bounds are
    clamped to the length.
- `Layout` (layout.dfy): the row-major classification loop of `__init__`. It is a method
  proved against the function `PointsOf`.
- `Beam` (beam.dfy): how far a beam gets (`Reach`), the cells ahead of a position (`Run`)
  and the covered cells (`Ray`).
- `Cover` (cover.dfy):
  - the restoring fold of `clean_firing_points` (`Uncover`);
  - the planting fold of `update_map_apples` (`PlantAll`), together with the beam cells
    it logs as hidden apples (`Deferred`).
- `Respawn` (respawn.dfy): `count_apples`, the `SPAWN_PROB` table and the list that
  `spawn_apples` builds, with the random draws given as a parameter.
- `Engine` (engine.dfy):
  - the fields of `HarvestEnv` as a `World` record;
  - one function per method, giving the state that method leaves behind, and for the
    methods that can raise on the numeric map an `Outcome` with the fault;
  - the invariant `Valid` that every method keeps. Part of it is `Walled`: once the
    character map exists every wall point holds `'@'`, no other cell ever does, and no
    `'A'` or `'F'` reservation names a wall point.
- `Properties` (properties.dfy): the per-cell and per-list facts about those functions,
  and the lemmas that each operation keeps `Valid`.
- `Harvest` (harvest.dfy): the imperative class `HarvestEnv`.
  - The map is an `array2<Cell>`, and the lists are `seq` fields.
  - Every method writes the array in place, in the source's loop order.
  - Each method's `ensures` ties the new state to the matching `Engine` function of the
    old state (`State() == Engine.F(old(State()))`), so the `Properties` lemmas carry over.
  - A ghost field `cells` mirrors the array as a value grid; `Linked()` keeps the two
    equal.

## Model

| member | source | states |
|---|---|---|
| Board.Set | social_dilemmas/envs/harvest.py:195 | writing one cell keeps the map's shape, gives that cell the new value and leaves every other cell as it was |
| Board.PaintAt | social_dilemmas/envs/harvest.py:124-127 | after a run of writes of one value to listed cells, a cell holds that value if it is listed and its old content otherwise |
| Board.Masked | social_dilemmas/envs/harvest.py:191-194 | the logged cells are never more than the covered cells |
| Board.MaskedHas | social_dilemmas/envs/harvest.py:191-194 | a cell is logged for a value exactly when it was covered and held that value beforehand |
| Beam.Reach | social_dilemmas/envs/harvest.py:184-188 | a beam covers at most its budget (`num_fire_cells`) of cells |
| Beam.Run | social_dilemmas/envs/harvest.py:189-197 | the k-th cell of the walk is the firer's position plus k + 1 times the direction |
| Beam.AheadInjective | social_dilemmas/envs/harvest.py:189-197 | the walk never visits a cell twice |
| Beam.ReachStops | social_dilemmas/envs/harvest.py:188-199 | every covered cell is on the map and not a wall; a beam shorter than its budget stops at the first off-map or wall cell |
| Beam.ReachUnique | social_dilemmas/envs/harvest.py:188-199 | those two facts determine the beam length uniquely |
| Beam.Ray | social_dilemmas/envs/harvest.py:184-199 | the beam's cells: the run ahead of the firer as far as `Reach` gets; its properties are `Beam.RayOpen` and `Properties.FireRay` |
| Beam.RayOpen | social_dilemmas/envs/harvest.py:190 | every covered cell is on the map and none is a wall |
| Beam.RayFromWalk | social_dilemmas/envs/harvest.py:188-199 | a walk that passed k open cells and then hit a closed cell, or ran out of budget, covered exactly the beam's cells |
| Beam.WalkStep | social_dilemmas/envs/harvest.py:189-197 | advancing `start_pos` by the direction reaches the next cell of the run, one not visited before |
| Cover.Uncover | social_dilemmas/envs/harvest.py:143-151 | restoring the firing points keeps the map's shape |
| Cover.UncoverAt | social_dilemmas/envs/harvest.py:143-151 | a firing point becomes `'A'` if hidden apples lists it, else `'P'` if an agent stands there, else `' '`; every other cell is unchanged |
| Cover.PlantAll | social_dilemmas/envs/harvest.py:203-208 | planting keeps the map's shape |
| Cover.PlantAt | social_dilemmas/envs/harvest.py:203-206 | a listed cell becomes `'A'` unless it holds `'P'` or `'F'`; unlisted cells are unchanged |
| Cover.Deferred | social_dilemmas/envs/harvest.py:207-208 | there are never more deferred apples than listed points |
| Cover.DeferredHas | social_dilemmas/envs/harvest.py:207-208 | a point is logged as a hidden apple exactly when it is listed, holds `'F'` and is not a hidden agent |
| Engine.ApplePlacesHas | social_dilemmas/envs/harvest.py:118-121 | a cell is collected as an apple position exactly when an `'A'` reservation names it |
| Engine.BeamPlacesHas | social_dilemmas/envs/harvest.py:118-123 | a cell is collected as a firing position exactly when an `'F'` reservation names it |
| Engine.PlacesIn | social_dilemmas/envs/harvest.py:118-123 | the collected positions are on the map whenever the `'A'` and `'F'` reservations are |
| Engine.BeamSlotsCommitted | social_dilemmas/envs/harvest.py:116-127 | the `'F'` reservations a beam returns are collected back by `execute_custom_reservations` as exactly the beam's cells, in order, and as no apple |
| Engine.Clean | social_dilemmas/envs/harvest.py:139-154 | the state `clean_firing_points` leaves: each firing point restored by `Uncover`, the three lists emptied; cell by cell in `Properties.CleanCell` |
| Engine.CleanOutcome | social_dilemmas/envs/harvest.py:139-154 | on the numeric map with a firing point the first write of the loop raises and nothing changes; otherwise the cleaned state; kept walls in `Properties.CleanKeepsWalls` |
| Engine.FireWorld | social_dilemmas/envs/harvest.py:183-200 | the state after `update_map_fire`: the map painted and the hidden lists grown along `Ray`; cell by cell in `Properties.FireCell` |
| Engine.Beamed | social_dilemmas/envs/harvest.py:190-197 | a given run of cells turned into `'F'` with the apples and agents under it logged in order |
| Engine.Act | social_dilemmas/envs/harvest.py:99-113 | one pass of the action loop: `KeyError` for an unknown agent or action, a `'P'` reservation for a move or stay, a new orientation for a turn, else a beam, which on the numeric map raises when its first cell is on the board; cases in `Properties.ActMove`, `ActTurn`, `ActFire`, `ActFireNumeric`, `ActUnknown` |
| Engine.ActAll | social_dilemmas/envs/harvest.py:99-113 | the passes in order, stopping at the first fault; `Properties.ActAllStops`, `ActAllAppends`, `ActAllKeepsWalls` |
| Engine.UpdateMap | social_dilemmas/envs/harvest.py:87-113 | cleaning then the action loop, the loop not run if cleaning raises; it requires the rules to know `'FIRE'` (harvest.py:33); `Properties.ValidUpdateMap`, `UpdateMapKeepsWalls` |
| Engine.PlantApples | social_dilemmas/envs/harvest.py:202-208 | the state after `update_map_apples`: the map planted, the deferred beam cells appended to the hidden apples; `Properties.PlantCell`, `PlantIdempotent` |
| Engine.CommitBeams | social_dilemmas/envs/harvest.py:124-127 | every `'F'` reservation cell written `'F'` and appended to the firing points |
| Engine.Execute | social_dilemmas/envs/harvest.py:115-130 | the beams committed, then the `'A'` reservation cells planted; `Properties.ExecuteCell`, `ExecuteLists` |
| Engine.ExecuteOutcome | social_dilemmas/envs/harvest.py:115-130 | on the numeric map with any `'F'` or `'A'` reservation the first write raises and nothing changes; otherwise the committed state; `Properties.ExecuteKeepsWalls`, `ValidExecute` |
| Engine.CustomMapUpdate | social_dilemmas/envs/harvest.py:132-137 | the spawned reservations appended when there are any; `Properties.CustomMapUpdateAppends` |
| Engine.BuildWalls | social_dilemmas/envs/harvest.py:178-181 | every wall point written `'@'`; cell by cell in `Properties.ResetCell` |
| Engine.Reset | social_dilemmas/envs/harvest.py:79-84 | on a base map with rows: a blank character map with the walls built and the apple points planted, no firing points, the new agents; `Properties.ResetCell`, `ResetLists`, `ValidResetRows` |
| Engine.ResetOutcome | social_dilemmas/envs/harvest.py:80 | on a base map with no rows `self.base_map[0]` raises `IndexError` (the fault `NoRows`) before any field is written; otherwise `Reset`; `Properties.ValidReset` |
| Engine.Blank | social_dilemmas/envs/harvest.py:80 | the fresh map has the base map's dimensions |
| Layout.RowPointsSpec | social_dilemmas/envs/harvest.py:52-58 | one row's points are exactly its cells holding the character, strictly left to right |
| Layout.PointsInSpec | social_dilemmas/envs/harvest.py:51-58 | the first n rows' points are exactly their cells holding the character, in strictly increasing row-major order |
| Layout.PointsOfSpec | social_dilemmas/envs/harvest.py:51-58 | a point is listed exactly when it is on the base map and holds the character |
| Layout.PointsOfBounds | social_dilemmas/envs/harvest.py:51-52 | every listed point lies on the base map |
| Layout.PointsOfOrdered | social_dilemmas/envs/harvest.py:51-52 | listed points are strictly increasing in row-major order, so none repeats |
| Layout.PointsOfDisjoint | social_dilemmas/envs/harvest.py:53-58 | the points of two different characters never meet, so apple and wall points are disjoint |
| Layout.PointsOf | social_dilemmas/envs/harvest.py:51-58 | the points of one character in row-major order; characterised by `Layout.PointsOfSpec` and `PointsOfOrdered` |
| Layout.ClassifyLayout | social_dilemmas/envs/harvest.py:51-58 | the loop returns exactly the `'P'`, `'A'` and `'@'` points in row-major order |
| Properties.FireRay | social_dilemmas/envs/harvest.py:184-199 | the beam has at most 5 cells, the contiguous run firer + k * direction for k = 1..n, all open, and a shorter beam is stopped by the next cell |
| Properties.FireCell | social_dilemmas/envs/harvest.py:190-197 | after firing, a covered cell holds `'F'` and every other cell is unchanged; walls stay walls; covered apples and agents are logged; no other field changes |
| Properties.FireIntoWall | social_dilemmas/envs/harvest.py:190-200 | firing into an adjacent wall or the edge covers nothing and changes nothing |
| Properties.CleanCell | social_dilemmas/envs/harvest.py:139-154 | cleaning restores each firing point to apple, player or empty, leaves no `'F'` there, keeps every other cell, and empties the three lists |
| Properties.PlantCell | social_dilemmas/envs/harvest.py:202-208 | planting changes only listed cells, never `'P'` or `'F'`; hidden apples gain exactly the listed `'F'` cells that are not hidden agents |
| Properties.PlantIdempotent | social_dilemmas/envs/harvest.py:202-206 | planting the same points twice gives the same map as planting once |
| Properties.ExecuteCell | social_dilemmas/envs/harvest.py:115-130 | after commit, a cell is `'F'` if an `'F'` reservation names it, else `'A'` if an `'A'` reservation names it and it held neither `'P'` nor `'F'`, else unchanged |
| Properties.ExecuteLists | social_dilemmas/envs/harvest.py:122-127 | the `'F'` cells are appended to the firing points in reservation order and all hold `'F'`; agents and reservations are unchanged, so `'P'` reservations are ignored |
| Properties.CustomMapUpdateAppends | social_dilemmas/envs/harvest.py:132-137 | the spawned reservations are appended and nothing else changes |
| Properties.SpawnCommitted | social_dilemmas/envs/harvest.py:116-130 | the spawned reservations are collected back by `execute_custom_reservations` as exactly their points, in order, as apples, and as no beam |
| Properties.ApplesCommitted | social_dilemmas/envs/harvest.py:116-121 | a list of `'A'` reservations is collected as its own positions and gives no beam |
| Properties.ActMove | social_dilemmas/envs/harvest.py:102-106 | a move or stay appends exactly one `(r, c, 'P', agent_id)` reservation at the rotated offset and changes nothing else |
| Properties.ActTurn | social_dilemmas/envs/harvest.py:107-109 | a turn changes only that agent's orientation |
| Properties.ActFire | social_dilemmas/envs/harvest.py:110-113 | a fire on the character map, or with the first cell ahead off the board, appends exactly the beam's reservations, and the rest of the state is the fired world |
| Properties.ActFireNumeric | social_dilemmas/envs/harvest.py:190-195 | before the first reset a beam whose first cell is on the board reaches the write `self.map[...] = 'F'`, which raises; nothing changes |
| Properties.FireIsBeam | social_dilemmas/envs/harvest.py:33 | the action `'FIRE'` that harvest.py adds to `ACTIONS` is known and contains none of `MOVE`, `STAY`, `TURN`, so on the character map it fires |
| Properties.ActUnknown | social_dilemmas/envs/harvest.py:100-101 | an unknown agent id or action name raises a `KeyError` and changes nothing |
| Properties.ActKeepsWalls | social_dilemmas/envs/harvest.py:99-113 | one action never overwrites a wall and keeps the map's shape |
| Properties.ActAllKeepsWalls | social_dilemmas/envs/harvest.py:99-113 | a whole run of actions never overwrites a wall |
| Properties.ActAppends | social_dilemmas/envs/harvest.py:99-113 | one pass only appends to the reservations |
| Properties.ActAllAppends | social_dilemmas/envs/harvest.py:99-113 | the action loop only appends to the reservations |
| Properties.ActAllStops | social_dilemmas/envs/harvest.py:99-101 | once an action raises, the later actions have no effect |
| Properties.UpdateMapKeepsWalls | social_dilemmas/envs/harvest.py:87-113 | `update_map` never overwrites a wall, on any path |
| Properties.CleanKeepsWalls | social_dilemmas/envs/harvest.py:139-154 | cleaning never overwrites a wall: a firing point holds `'F'`, so it is no wall |
| Properties.ExecuteKeepsWalls | social_dilemmas/envs/harvest.py:115-130 | committing never overwrites a wall: no `'A'` or `'F'` reservation names a wall point |
| Properties.ResetCell | social_dilemmas/envs/harvest.py:79-84 | after a reset every cell is `'@'` at a wall point, `'A'` at an apple point and `' '` elsewhere |
| Properties.ResetLists | social_dilemmas/envs/harvest.py:79-84 | a reset empties the firing points, installs the new agents, keeps the hidden lists and reservations, and keeps the base map's dimensions |
| Properties.ValidFrom | social_dilemmas/envs/harvest.py:43-58 | the invariant holds for any state that keeps the layout and shape, whose firing points hold beams, whose reservations are on the map, whose numeric map is blank and which keeps `Walled` |
| Properties.ValidInit | social_dilemmas/envs/harvest.py:43-58 | the freshly built environment, its map the numeric zeros shown as blank, satisfies the invariant |
| Properties.ValidClean | social_dilemmas/envs/harvest.py:139-154 | cleaning keeps the invariant, walls included, whether it raises or not |
| Properties.FireKeeps | social_dilemmas/envs/harvest.py:183-200 | firing keeps the shape, keeps old firing points as beams, and its reservations are on the map |
| Properties.FireWalled | social_dilemmas/envs/harvest.py:190-197 | on the character map a beam keeps `Walled`: it neither paints nor reserves a wall point |
| Properties.ValidAct | social_dilemmas/envs/harvest.py:99-113 | one action keeps the invariant |
| Properties.ValidActAll | social_dilemmas/envs/harvest.py:99-113 | the action loop keeps the invariant |
| Properties.ValidUpdateMap | social_dilemmas/envs/harvest.py:87-113 | `update_map` keeps the invariant |
| Properties.ExecuteKeeps | social_dilemmas/envs/harvest.py:115-130 | committing keeps the shape and keeps old firing points as beams |
| Properties.ExecuteWalled | social_dilemmas/envs/harvest.py:115-130 | committing on the character map keeps `Walled` |
| Properties.ExecuteNothing | social_dilemmas/envs/harvest.py:115-130 | with no `'F'` and no `'A'` reservation committing changes nothing |
| Properties.ValidExecute | social_dilemmas/envs/harvest.py:115-130 | committing keeps the invariant, walls included, whether it raises or not |
| Properties.ValidCustomMapUpdate | social_dilemmas/envs/harvest.py:132-137 | spawning keeps the invariant: the new reservations name apple points, never wall points |
| Properties.SpawnedApart | social_dilemmas/envs/harvest.py:156-169 | every spawned reservation names a cell on the map that is not a wall point |
| Properties.ValidReset | social_dilemmas/envs/harvest.py:79-84 | `reset_map` keeps the invariant on both paths, and it raises exactly when the base map has no rows |
| Properties.ValidResetRows | social_dilemmas/envs/harvest.py:79-84 | a reset of a base map with rows installs the character map and keeps the invariant: the walls are exactly the wall points |
| Respawn.FlattenHas | social_dilemmas/envs/harvest.py:173 | a value occurs among the window's entries exactly when some entry holds it |
| Respawn.FlattenSize | social_dilemmas/envs/harvest.py:173 | a window of at most h rows of at most w entries has at most h * w entries |
| Respawn.CountApples | social_dilemmas/envs/harvest.py:171-176 | the number of apple entries in the window; `Respawn.CountApplesZero` |
| Respawn.CountApplesZero | social_dilemmas/envs/harvest.py:171-176 | the apple count is at most the window size, and 0 exactly when no entry is an apple |
| Respawn.TableIndex | social_dilemmas/envs/harvest.py:165 | the table index `min(n, 3)` is a valid index of `SPAWN_PROB` and at most n |
| Respawn.SpawnChanceMonotone | social_dilemmas/envs/harvest.py:35 | the spawn chance grows with the count, and is 0 exactly when the count is 0 |
| Respawn.SpawnChance | social_dilemmas/envs/harvest.py:165 | `SPAWN_PROB[min(n, 3)]`; `Respawn.SpawnChanceMonotone` |
| Respawn.LocalApples | social_dilemmas/envs/harvest.py:163-164 | the apple count of the radius-2 window around a point; `Respawn.LocalApplesBounded`, `LocalApplesInside` |
| Respawn.LocalApplesBounded | social_dilemmas/envs/harvest.py:163-164 | the count around a point is at most 25, the size of a radius-2 window |
| Respawn.LocalApplesInside | social_dilemmas/envs/harvest.py:163-164 | away from the edges, the count is 0 exactly when the 5x5 block around the point holds no apple |
| Respawn.BlockApples | social_dilemmas/envs/harvest.py:171-176 | a window copied from a block of the map has no apples exactly when that block has none |
| Respawn.LocalApplesNearFirstRow | social_dilemmas/envs/harvest.py:163-164 | a point in the first two rows (0 <= x < 2) of a map with more than x + 2 rows sees an empty window, so it counts 0 |
| Respawn.LocalApplesNearFirstColumn | social_dilemmas/envs/harvest.py:163-164 | a point in the first two columns (0 <= y < 2) of a map with more than y + 2 columns sees empty rows, so it counts 0 |
| Respawn.Chances | social_dilemmas/envs/harvest.py:161-165 | there is one spawn chance per apple point |
| Respawn.Kept | social_dilemmas/envs/harvest.py:166-168 | at most one reservation per apple point, each an `'A'` |
| Respawn.KeptSubseq | social_dilemmas/envs/harvest.py:160-169 | the kept points form a subsequence of the apple points |
| Respawn.KeptHas | social_dilemmas/envs/harvest.py:166-168 | a point is reserved exactly when some occurrence of it drew below its chance |
| Respawn.SpawnSlots | social_dilemmas/envs/harvest.py:156-169 | the reservations `spawn_apples` returns for the given draws; `Respawn.SpawnSlotsSubseq`, `SpawnSlotsHas` |
| Respawn.SpawnSlotsSubseq | social_dilemmas/envs/harvest.py:156-169 | `spawn_apples` returns, in order, a subsequence of the apple points, each tagged `'A'` |
| Respawn.SpawnSlotsHas | social_dilemmas/envs/harvest.py:161-168 | a point is returned exactly when its draw is below the table entry for its local count |
| Respawn.NoSpawnWithoutApples | social_dilemmas/envs/harvest.py:163-167 | with draws in [0, 1), a point with no apples in its window never spawns, nor does one with 0 <= x < 2 and x + 2 < rows, or with 0 <= y < 2 and y + 2 < cols |
| Window.PadAmountsLeast | social_dilemmas/envs/map_env.py:156-164 | each pad amount is at least 0 and is the least that brings its edge back to the border (right compared with the column count, bottom with the row count) |
| Window.PadAmountsInside | social_dilemmas/envs/map_env.py:157-162 | a left or top edge inside the matrix gets no padding |
| Window.PadAmounts | social_dilemmas/envs/map_env.py:156-164 | the four pad amounts; `Window.PadAmountsLeast`, `PadAmountsInside` |
| Window.Padded | social_dilemmas/envs/map_env.py:165-166 | axis 0 grows by the left and right pads |
| Window.PaddedShape | social_dilemmas/envs/map_env.py:165-166 | axis 1 grows by the top and bottom pads |
| Window.PadMatrixLayout | social_dilemmas/envs/map_env.py:153-167 | the result has shape (rows + left + right) x (cols + top + bot), every original entry sits at offset (left, top), and every other entry is the constant 0 |
| Window.PadMatrixInside | social_dilemmas/envs/map_env.py:156-166 | with every edge inside the matrix, the result is the matrix unchanged |
| Window.PadMatrix | social_dilemmas/envs/map_env.py:153-167 | the padded matrix; `Window.PadMatrixLayout`, `PadMatrixInside` |
| Window.PySliceAt | social_dilemmas/envs/map_env.py:149-150 | a Python slice has the clamped length and takes its elements in order from where its start lands |
| Window.SliceLenBounded | social_dilemmas/envs/map_env.py:149-150 | a slice is never longer than the range it names |
| Window.PySlice | social_dilemmas/envs/map_env.py:149-150 | Python's `s[start:stop]` with negative indices counted from the end and clamped bounds; `Window.PySliceAt` |
| Window.SliceCols | social_dilemmas/envs/map_env.py:150 | slicing columns keeps the number of rows |
| Window.SliceGrid | social_dilemmas/envs/map_env.py:149-150 | a row-then-column slice has the clamped lengths, and each entry is the one at the landing offsets |
| Window.PaddedSliceAt | social_dilemmas/envs/map_env.py:147-150 | the same for a slice of the padded matrix, entry by entry |
| Window.PaddedSliceInside | social_dilemmas/envs/map_env.py:147-150 | a slice inside the map of a matrix padded only after its rows and columns is the map's block at the slice's corner |
| Window.ReturnViewInside | social_dilemmas/envs/map_env.py:128-151 | with the window inside the map, the view is the (2 * col_size + 1) x (2 * row_size + 1) block at (x - col_size, y - row_size) |
| Window.ReturnViewCentre | social_dilemmas/envs/map_env.py:142-150 | in that case the centre entry `view[col_size][row_size]` is the cell at the agent's position |
| Window.ReturnViewBounded | social_dilemmas/envs/map_env.py:142-150 | the view never exceeds (2 * col_size + 1) x (2 * row_size + 1) |
| Window.ReturnViewEmptyNearFirstRow | social_dilemmas/envs/map_env.py:143-149 | for 0 <= x < col_size and x + col_size < rows the negative slice start wraps past the stop, so the view has no rows |
| Window.ReturnViewEmptyNearFirstColumn | social_dilemmas/envs/map_env.py:145-150 | for 0 <= y < row_size and y + row_size < cols every row of the view is empty |
| Window.ReturnView | social_dilemmas/envs/map_env.py:128-151 | the padded matrix sliced at the unshifted edges; `Window.ReturnViewInside`, `ReturnViewCentre`, `ReturnViewBounded` |
| Harvest.HarvestEnv.MapIsCells | social_dilemmas/envs/harvest.py:163 | that value grid is the mirrored map, and it is rectangular |
| Harvest.HarvestEnv.SetCell | social_dilemmas/envs/harvest.py:195 | `self.map[row, col] = v` on the character map changes exactly that cell |
| Harvest.HarvestEnv.constructor | social_dilemmas/envs/harvest.py:43-58 | the new environment holds the base map, the numeric map (`charMap` false, shown as all-empty), the classified layout lists and empty beam and reservation lists, and satisfies the invariant |
| Harvest.HarvestEnv.BuildWalls | social_dilemmas/envs/harvest.py:178-181 | every wall point is written `'@'` and nothing else changes |
| Harvest.HarvestEnv.UpdateMapApples | social_dilemmas/envs/harvest.py:202-208 | the map becomes the planted map and the hidden apples gain exactly the deferred points |
| Harvest.HarvestEnv.PlantPoint | social_dilemmas/envs/harvest.py:204-208 | one pass of that loop extends both folds by one point |
| Harvest.HarvestEnv.ResetMap | social_dilemmas/envs/harvest.py:79-84 | the new state and the fault are those of `Engine.ResetOutcome`: unchanged with `NoRows` on a base map with no rows, else the reset; the invariant holds |
| Harvest.HarvestEnv.ResetFields | social_dilemmas/envs/harvest.py:80-84 | the field writes of `reset_map`: a fresh map with walls and apples, empty firing points, the new agents |
| Harvest.HarvestEnv.Replant | social_dilemmas/envs/harvest.py:80-84 | a blank map with the walls built and the apple points planted |
| Harvest.HarvestEnv.FreshWalls | social_dilemmas/envs/harvest.py:80-83 | a new blank map with the walls built |
| Harvest.HarvestEnv.ClearMap | social_dilemmas/envs/harvest.py:80 | on a base map with rows (the caller handles the `IndexError` otherwise), a new blank character map of the base map's dimensions |
| Harvest.HarvestEnv.CleanFiringPoints | social_dilemmas/envs/harvest.py:139-154 | the new state and fault are those of `Engine.CleanOutcome`: raising before any write on the numeric map, else the cleaned old state |
| Harvest.HarvestEnv.RestoreFiringPoints | social_dilemmas/envs/harvest.py:140-151 | the loop restores every firing point in list order |
| Harvest.HarvestEnv.UpdateMapFire | social_dilemmas/envs/harvest.py:183-200 | on the numeric map a beam whose first cell is on the board raises with nothing changed; otherwise the walk covers exactly the beam cells, each turned into `'F'`, the apples and agents under them logged in order, and one `'F'` reservation returned per cell |
| Harvest.HarvestEnv.WalkBeam | social_dilemmas/envs/harvest.py:186-200 | on the character map the walk covers exactly the beam cells, turns each into `'F'`, logs the apples and agents under them in order and returns one `'F'` reservation per cell |
| Harvest.HarvestEnv.Advance | social_dilemmas/envs/harvest.py:189-197 | one successful pass of the walk keeps the loop invariant for one more cell |
| Harvest.HarvestEnv.CoverCell | social_dilemmas/envs/harvest.py:191-195 | covering one open cell logs its apple or agent, then writes `'F'` |
| Harvest.HarvestEnv.ApplyAction | social_dilemmas/envs/harvest.py:99-113 | one pass of the action loop does exactly what `Engine.Act` says, including the fault |
| Harvest.HarvestEnv.UpdateMap | social_dilemmas/envs/harvest.py:87-113 | the new state and fault are those of `Engine.UpdateMap`, and the invariant holds |
| Harvest.HarvestEnv.ExecuteCustomReservations | social_dilemmas/envs/harvest.py:115-130 | the new state and fault are those of `Engine.ExecuteOutcome`, and the invariant holds |
| Harvest.HarvestEnv.CollectPlaces | social_dilemmas/envs/harvest.py:116-123 | the first loop collects exactly the `'A'` and the `'F'` reservation cells, in order |
| Harvest.HarvestEnv.CommitBeamCells | social_dilemmas/envs/harvest.py:124-127 | each `'F'` cell is written and appended to the firing points |
| Harvest.HarvestEnv.CommitReservations | social_dilemmas/envs/harvest.py:124-130 | the beam loop then `update_map_apples`: the map painted then planted, the firing points and hidden apples extended |
| Harvest.HarvestEnv.SpawnApples | social_dilemmas/envs/harvest.py:156-169 | returns exactly the spawn reservations for the current map and the given draws, without changing anything |
| Harvest.HarvestEnv.CustomMapUpdate | social_dilemmas/envs/harvest.py:132-137 | the new state is the old one with the spawn reservations appended, and the invariant holds |

## Left out

- Agents are reduced to a position and an orientation. `setup_agents`, `HarvestAgent`,
  `spawn_point`, `spawn_rotation`, `agent.fire_beam`, rewards and done flags belong to
  agent code that is not part of this model. `reset_map` therefore takes the new agents
  as a parameter instead of calling `setup_agents`.
- `MapEnv.step`, `MapEnv.reset`, rendering and the colour maps are left out. They are gym
  plumbing and visualisation. `step` also expects a return value that `update_map` does
  not give. Of `MapEnv.__init__` only the numeric map it installs (map_env.py:35) is
  modelled.
- `action_space` and `observation_space` are left out: they are empty stubs.
- harvest.py imports `ACTIONS` and `ORIENTATIONS` from map_env.py, whose text here does
  not define them; `rotate_action` and `update_rotation` are not defined in either file.
  They become assumptions:
  - `ACTIONS`, `rotate_action` and `update_rotation` are the `Rules` parameter (a key
    set, an offset function and a turn function). The one key harvest.py adds,
    `ACTIONS['FIRE'] = 5` (harvest.py:33), is required: `Rules.KnowsFire`.
  - `ORIENTATIONS` is taken to map each orientation to its cardinal unit vector, rows
    growing downwards.
- `test_if_in_bounds` is not part of this model. It is taken to mean
  `0 <= r < rows && 0 <= c < cols`, which is the array's own bounds.
- The initialisation of `reserved_slots` and of `spawn_points` is not part of this model:
  harvest.py:46-50 set up the other lists, and harvest.py:54 appends to `spawn_points`.
  Both are taken to start empty.
- Committing `'P'` reservations (agent movement and collisions) is done by code that is
  not part of this model. No invariant about agents sharing cells is stated.
- `np.random.rand` is replaced by a caller-supplied sequence of draws, one per apple
  point. Nothing is said about probabilities beyond the threshold comparison.
- The numeric map is modelled only as far as the engine uses it: its cells are shown as
  `Empty` (a zero is never `'@'`, `'A'` or `'P'`, and never counts as an apple), and the
  first character write into it is the fault `NumericMap`. numpy's dtypes are not modelled.
- The `agent_actions` dict is modelled as a sequence of (agent id, action) pairs in
  iteration order.
- A `KeyError` for an unknown agent id or action name becomes a returned `Fault`. The
  state is the one after the pairs processed before it, as when Python raises mid-loop.
- `agent_pos` in `clean_firing_points` is a list; it is modelled as the set of agent
  positions, which gives the same membership test.
- `count_apples` via `np.unique` is modelled as the number of apple entries in the window.
- The map's `'P'` is one character for every agent. Agent ids appear only in reservations.

## Notes on the source's behaviour

- The beam is written into the map as soon as it is fired (harvest.py:195). The `'F'`
  reservations `update_map_fire` returns are written again by
  `execute_custom_reservations` (harvest.py:124-127), which also records them as firing
  points.
- `SPAWN_PROB` (harvest.py:35) grows with the number of nearby apples and is 0 with none,
  so more apples nearby make regrowth more likely.
- `reset_map` does not clear `hidden_apples` or `hidden_agents` (harvest.py:79-84);
  `Properties.ResetLists` states that they are kept.
- `HarvestEnv.__init__` (harvest.py:43-58) does not call `reset_map`, so until the first
  reset `self.map` is the float array of map_env.py:35. A beam whose first cell is on the
  board (harvest.py:195), a clean with firing points (harvest.py:146-151) and a commit
  with `'F'` or `'A'` reservations (harvest.py:126, 206) raise `ValueError` there
  (`Properties.ActFireNumeric`, `Engine.CleanOutcome`, `Engine.ExecuteOutcome`).
- `__init__` accepts a base map with no rows: its classification loop (harvest.py:51-58)
  runs zero times. `reset_map` then raises `IndexError` at `self.base_map[0]`
  (harvest.py:80) before writing anything, so the map stays numeric
  (`Engine.ResetOutcome`).
- `return_view` slices the padded matrix at unshifted edges, and a negative slice start
  wraps around (map_env.py:149-150). So for 0 <= x < 2 on a map with more than x + 2
  rows the view is empty, and for 0 <= y < 2 on a map with more than y + 2 columns every
  row of it is empty. Apple points there never regrow (`Respawn.NoSpawnWithoutApples`).
  On smaller maps the stop is clamped first and the view need not be empty: on a 2 x 2
  map the view around (0, 0) is the single cell (0, 0). The window is exact only away
  from the edges (`Window.ReturnViewInside`).
