# EchoDrift simulation core in Dafny

EchoDrift is a grid survival game. The player's actor, the Echo, moves one cell per update in the direction last given by input. It leaves a trail behind it and loses (GAME_OVER) on leaving the grid or stepping onto its own trail. Ghosts are random walkers that leave their own trails. A ghost skips any step that would leave the grid or land on the player's trail. A GameManager owns the grid, the Echo, the ghosts and the game state. Each geometry buffer stores a flat list of 2-float vertices and caches a vertex count.

This project models that discrete simulation and proves properties of it:

- the cell-to-screen mapping and the grid-line geometry, over `real`;
- the step rules of both actors, and the trail invariants they keep;
- the coordinator's state machine and update order;
- the vertex-count bookkeeping of the buffer.

Modules, one per component:

| module | file | models |
|---|---|---|
| `Types` | types.dfy | the `GameState` and `Direction` enumerations |
| `Entity` | entity.dfy | the `Vec2` cell (`Cell`, default `Origin`), `MOVE_INTERVAL`, the move-timer bookkeeping |
| `Rendering` | rendering.dfy | the `Buffer` class: contents, vertex count, acquired/released handles |
| `Game` | grid.dfy | `gridToScreen`, the grid-line list, the `Grid` class |
| `Motion` | motion.dfy | what Echo and Ghost share: the candidate cell, the bounds and trail checks, trail geometry |
| `Player` | echo.dfy | the `Echo` class and its step specification |
| `Drifter` | ghost.dfy | the `Ghost` class and its step specification |
| `Coordinator` | game_manager.dfy | the `GameManager` class |

How the model is shaped:

- **State as classes.** Objects whose fields the code updates in place are classes. Echo and Ghost hold `position`, `moveTimer`, `trail: seq<Cell>` and an owned `buffer`. The Echo also holds `direction`.
- **Specification functions.** Each state-changing method is proved against pure functions of the old state. These are `PlayerTrailAfter`, `PlayerStateAfter`, `GhostTrailAfter`, `Upload` and `TrailGeometry`. The lemmas about those functions state the invariants.
- **Timer and move are separate.** In the code, the `if (m_moveTimer >= MOVE_INTERVAL)` block encloses only the timer reset. It closes at src/Entities/Echo.cpp:69 and src/Entities/Ghost.cpp:74. So each `Update` is modelled as the timer bookkeeping (`AccumulateTimer`) followed by an unconditional movement attempt, and a move is attempted on every update.
- **Broken calls, evident intent.** Several calls do not compile: `getGrid`, `getTrailHistory`, `std::make_unique<Grid>()` and the constructors called with a grid pointer. Their evident intent is modelled by passing the grid dimensions and the player's trail as parameters. The `CoreDrift::Core::Direction` case labels of the ghost's switch (src/Entities/Ghost.cpp:81-83) name a namespace that does not exist. `Neighbor` gives them their evident meaning: DOWN, LEFT and RIGHT, as in the Echo's switch.
- **GRID_SIZE.** It is not defined in any header. It becomes the parameter `gridSize > 0` of `GameManager.Init`, and the cell size is a parameter as well.
- **Random direction.** The Ghost's draw from the uniform distribution over 1..4 is a parameter `roll` with `1 <= roll <= 4`. `DecideMove` casts it to a direction.

The source's own comments promise more in three places. The comments inside the timer blocks (src/Entities/Echo.cpp:56, src/Entities/Ghost.cpp:61) place the movement logic there. The comment at src/Entities/Ghost.cpp:101 says a ghost that meets the player's trail is destroyed. The Ghost header (include/Entities/Ghost.h:13, 18) calls a ghost's trail deadly. In those places, and in the other points below, the model follows the code:

- A move is attempted on every update, not only once the timer reaches `MOVE_INTERVAL`.
- A ghost whose candidate cell is on the player's trail just returns. Nothing flags it, and nothing removes it from the collection. It stays, and it tries again on the next update.
- A ghost's trail never blocks the player or ends the game. The header calls it deadly, but no code checks it. The Echo's checks (src/Entities/Echo.cpp:94-113) look only at the grid and the Echo's own trail. `GameManager::Update` leaves the collision check as a TODO comment (src/Core/GameManager.cpp:74).
- The Echo does not check the game state itself. The only guard is the RUNNING check in `GameManager::Update`.
- The self-collision loop compares against the whole trail, including the current head. This is harmless: the candidate is always one unit away from the head (`Neighbor`, `ProbeHeadNeverBlocks`).
- The `Grid` constructor does not validate its dimensions. The model's constructor requires `width > 0 && height > 0`, because the mapping and the line list divide by them.

## Model

| member | source | states |
|---|---|---|
| `Types.DirectionOrdinal` | include/Core/Types.h:16-22 | each direction's underlying integer is below 5; it is 0 exactly for NONE |
| `Types.DirectionFromOrdinal` | include/Core/Types.h:16-22 | the cast from 0..4 to a direction is inverse to the ordinal |
| `Types.DirectionOrdinalRoundTrip` | include/Core/Types.h:16-22 | ordinal then cast gives back every direction, so there are exactly five directions, NONE first |
| `Types.MovingOrdinals` | include/Core/Types.h:16-22 | every integer in 1..4 casts to UP, DOWN, LEFT or RIGHT, never NONE |
| `Types.GameStateOrdinal` | include/Core/Types.h:9-13 | states get ordinals 0..2, with RUNNING first |
| `Types.GameStateOrdinalInjective` | include/Core/Types.h:9-13 | distinct states have distinct ordinals: exactly the three states RUNNING, GAME_OVER, PAUSED |
| `Entity.AccumulateTimer` | src/Entities/Echo.cpp:52-69 | after adding dt, the timer is below MOVE_INTERVAL; it is either the sum or, only once the sum has reached the threshold, 0 |
| `Entity.MoveIntervalPositive` | include/Entities/Entity.h:25 | MOVE_INTERVAL (0.2) is positive, so a fresh timer has not reached it (the zero start of each timer is stated by the `Echo` and `Ghost` constructors) |
| `Entity.AccumulateTimerAdds` | src/Entities/Echo.cpp:52-69 | below the threshold no reset happens and frame times add up |
| `Rendering.Upload` | src/Rendering/Buffer.cpp:29-42 | the buffer state after `SetData(v)`: it keeps or establishes the two-floats-per-vertex layout (count = \|data\| / 2), and a non-empty upload always establishes it |
| `Rendering.UploadEmptyIsNoOp` | src/Rendering/Buffer.cpp:30 | an empty upload leaves contents and count unchanged |
| `Rendering.UploadReplaces` | src/Rendering/Buffer.cpp:34-42 | a non-empty upload stores exactly the new list with count `\|v\| / 2`, whatever was stored before |
| `Rendering.UploadIdempotent` | src/Rendering/Buffer.cpp:29-58 | uploading the same list twice equals uploading it once |
| `Rendering.UploadKeepsLayout` | src/Rendering/Buffer.cpp:29-34 | every upload keeps count = number of complete (x, y) pairs stored |
| `Rendering.VertexAt` | src/Rendering/Buffer.cpp:46-51 | defines vertex k as the stored floats 2k and 2k+1 (the 2-float stride); its contract states only that both are stored values, and `Motion.TrailVertexIsCellCentre` is the property about it |
| `Rendering.Buffer.constructor` | src/Rendering/Buffer.cpp:10-16 | a new buffer has acquired its handles, is empty, and has count 0 |
| `Rendering.Buffer.Release` | src/Rendering/Buffer.cpp:18-23 | destruction releases the acquired handles once, and leaves contents and count alone |
| `Rendering.Buffer.Bind` | include/Rendering/Buffer.h:30-32 | const: no stored field changes |
| `Rendering.Buffer.Unbind` | include/Rendering/Buffer.h:37-39 | const: no stored field changes |
| `Rendering.Buffer.SetData` | src/Rendering/Buffer.cpp:29-59 | the new state is `Upload(old state, v)`; the layout invariant is kept and the handles are untouched |
| `Rendering.Buffer.GetVertexCount` | include/Rendering/Buffer.h:48 | the count returned is the number of complete (x, y) pairs stored |
| `Game.InBounds` | src/Entities/Echo.cpp:95-96 | the bounds check 0 ≤ x < width, 0 ≤ y < height (the same check is at src/Entities/Ghost.cpp:89-90); no cell is in bounds unless both dimensions are positive |
| `Game.ScreenAxis` | src/Game/Grid.cpp:39-47 | for a cell index inside the extent, the screen coordinate lies strictly inside (-1, 1) |
| `Game.ScreenAxisEnds` | src/Game/Grid.cpp:39-47 | cell 0 maps to -1 + 1/n and cell n-1 to 1 - 1/n |
| `Game.ScreenAxisStrictlyIncreasing` | src/Game/Grid.cpp:39-47 | the axis mapping is strictly increasing |
| `Game.GridToScreen` | src/Game/Grid.cpp:34-53 | every in-bounds cell maps strictly inside the normalised square (-1, 1)² |
| `Game.GridToScreenSeparable` | src/Game/Grid.cpp:39-47 | each screen axis depends only on its own coordinate |
| `Game.GridToScreenMonotone` | src/Game/Grid.cpp:39-47 | the mapping is strictly increasing in x and in y |
| `Game.GridToScreenInjective` | src/Game/Grid.cpp:34-53 | distinct cells map to distinct screen points |
| `Game.CornerCellsOnTenByTen` | src/Game/Grid.cpp:39-47 | on a 10 by 10 grid, (0,0) maps to (-0.9,-0.9) and (9,9) to (0.9,0.9) |
| `Game.TruncateToInt` | include/Entities/Entity.h:15 | float-to-int conversion truncates toward zero: anything in (-1, 1) becomes 0 |
| `Game.GridToScreenAsWritten` | src/Game/Grid.cpp:52 | the mapping as written, with the result stored through `Vec2`'s integer constructor: every in-bounds cell comes out as (0, 0) |
| `Game.AsWrittenCollapsesToOrigin` | src/Game/Grid.cpp:52 | as written, storing the screen point in an integer `Vec2` maps every in-bounds cell to (0, 0) |
| `Game.AsWrittenCornersCoincide` | src/Game/Grid.cpp:52 | as written, opposite corners of a 10 by 10 grid give the same point, though the intended mapping separates them |
| `Game.LineAxis` | src/Game/Grid.cpp:63 | the position of grid line i on an axis of n cells; every interior line (0 < i < n) lies strictly inside (-1, 1) (the same formula is at src/Game/Grid.cpp:73) |
| `Game.LineAxisEnds` | src/Game/Grid.cpp:63 | grid line 0 is at -1 and grid line n is at +1 |
| `Game.VerticalLines` | src/Game/Grid.cpp:60-69 | k vertical lines take 4k floats |
| `Game.HorizontalLines` | src/Game/Grid.cpp:72-79 | k horizontal lines take 4k floats |
| `Game.VerticalLineAt` | src/Game/Grid.cpp:60-69 | vertical line i is the four floats (x_i, -1, x_i, 1) at offset 4i, with x_i = (i/w)*2-1 |
| `Game.HorizontalLineAt` | src/Game/Grid.cpp:72-79 | horizontal line i is the four floats (-1, y_i, 1, y_i) at offset 4i |
| `Game.LineVertices` | src/Game/Grid.cpp:60-79 | the vertical lines followed by the horizontal lines: 4(w+1)+4(h+1) floats |
| `Game.LineVerticesShape` | src/Game/Grid.cpp:60-83 | the line list has 4(w+1)+4(h+1) floats, i.e. 2(w+1)+2(h+1) vertices, starting at -1 and ending at +1 |
| `Game.Grid.constructor` | src/Game/Grid.cpp:11-24 | dimensions and cell size stored as given; a fresh owned buffer holds the line list, with 2(w+1)+2(h+1) vertices |
| `Game.Grid.SetupBuffers` | src/Game/Grid.cpp:55-84 | the two loops build exactly the vertical-then-horizontal line list, which is uploaded to the buffer |
| `Motion.Neighbor` | src/Entities/Echo.cpp:81-88 | a moving direction gives a cell one unit away on exactly one axis (UP/DOWN keep x, LEFT/RIGHT keep y, with the signs of the switch); NONE keeps the cell |
| `Motion.NeighborInjective` | src/Entities/Echo.cpp:81-88 | different moving directions give different candidate cells |
| `Motion.AppendKeepsPath` | src/Entities/Echo.cpp:120-121 | appending a unit step keeps every consecutive pair of the trail a unit step |
| `Motion.AppendKeepsDistinct` | src/Entities/Echo.cpp:105-121 | appending a cell not in the trail keeps trail cells pairwise distinct |
| `Motion.AppendKeepsInBounds` | src/Entities/Echo.cpp:95-121 | appending an in-bounds cell keeps the whole trail in bounds |
| `Motion.CellIndexInRange` | src/Entities/Echo.cpp:95-101 | a cell that passes the bounds check has a row-major index in [0, width·height) |
| `Motion.CellIndexInjective` | src/Entities/Echo.cpp:95-101 | distinct in-bounds cells have distinct row-major indices |
| `Motion.IndicesCount` | src/Entities/Echo.cpp:105-121 | a trail the self-check keeps pairwise distinct has exactly as many cell indices as cells |
| `Motion.RangeCount` | src/Entities/Echo.cpp:95-101 | the grid has exactly width·height cell indices |
| `Motion.TrailFitsGrid` | src/Entities/Echo.cpp:95-121 | pigeonhole: a pairwise-distinct in-bounds trail has at most width·height cells |
| `Motion.Probe` | src/Entities/Echo.cpp:76-113 | NONE attempts nothing; a committed move is the neighbour cell, in bounds and not an obstacle; a rejection names its cause |
| `Motion.ProbeMovesWhenClear` | src/Entities/Echo.cpp:95-121 | a direction whose neighbour is in bounds and clear always moves there |
| `Motion.ProbeBoundsIgnoreObstacles` | src/Entities/Ghost.cpp:89-94 | whether a step leaves the grid does not depend on which trail is checked, so Echo and Ghost agree on it |
| `Motion.ProbeHeadNeverBlocks` | src/Entities/Echo.cpp:105-113 | for every trail and direction, checking the whole trail or the trail without its head gives the same verdict |
| `Motion.FindInTrail` | src/Entities/Echo.cpp:105-113 | the comparison loop reports a hit exactly when the cell is some trail cell |
| `Motion.TrailGeometry` | src/Entities/Echo.cpp:33-45 | a trail's point list has two floats per cell, the x and y of that cell's screen centre, in trail order |
| `Motion.TrailVertexIsCellCentre` | src/Entities/Echo.cpp:33-45 | after the trail's point list is uploaded, buffer vertex k (floats 2k, 2k+1) is the screen centre of trail cell k |
| `Motion.BuildTrailVertices` | src/Entities/Echo.cpp:37-41 | the loop builds exactly `TrailGeometry` of the trail (the same loop is at src/Entities/Ghost.cpp:40-44) |
| `Player.PlayerTrailAfter` | src/Entities/Echo.cpp:76-121 | a step leaves the trail as it was or appends one cell: the old trail is always a prefix |
| `Player.PlayerStateAfter` | src/Entities/Echo.cpp:94-113 | a step either leaves the state as it was or sets GAME_OVER, and only with a direction held (`setState(GAME_OVER)` at lines 99 and 110) |
| `Player.PlayerStepPreservesTrail` | src/Entities/Echo.cpp:95-121 | every step keeps the player trail non-empty, a unit-step path, pairwise distinct and in bounds |
| `Player.PlayerStepCases` | src/Entities/Echo.cpp:76-121 | either the trail grows by one cell a unit step from the old head, with the state untouched, or it is unchanged; in that case the state is GAME_OVER exactly when there was a direction |
| `Player.PlayerRejectionRepeats` | src/Entities/Echo.cpp:95-113 | after a rejected step, repeating it gives no trail growth and the state stays GAME_OVER |
| `Player.PlayerFullTrailEndsGame` | src/Entities/Echo.cpp:95-121 | once the trail covers the whole grid, every step with a direction is GAME_OVER with the trail unchanged, so a game has at most width·height − 1 player moves |
| `Player.PlayerMovesRight` | src/Entities/Echo.cpp:86-121 | from (5,5) moving RIGHT on a 10 by 10 grid, the trail becomes [(5,5),(6,5)] and the game keeps running |
| `Player.PlayerHitsWall` | src/Entities/Echo.cpp:95-101 | from (9,5) moving RIGHT on a grid 10 wide: GAME_OVER, trail unchanged |
| `Player.PlayerHitsOwnTrail` | src/Entities/Echo.cpp:105-113 | moving into a cell already in the trail: GAME_OVER, trail unchanged |
| `Player.Echo.constructor` | src/Entities/Echo.cpp:18-22 | the start cell is the position and the one-cell trail; direction NONE, timer 0, a fresh, empty, owned buffer |
| `Player.Echo.SetPosition` | include/Entities/Entity.h:36 | the position becomes p and no other field changes |
| `Player.Echo.HandleInput` | src/Entities/Echo.cpp:24-27 | the direction becomes d; trail, position and timer are unchanged |
| `Player.Echo.GenerateTrailGeometry` | src/Entities/Echo.cpp:33-45 | the buffer ends up as the upload of the trail's point list |
| `Player.Echo.Step` | src/Entities/Echo.cpp:71-125 | the new trail and returned state are `PlayerTrailAfter`/`PlayerStateAfter` of the old trail and direction; invariants and bounds kept; on a move the buffer holds the new trail's geometry with count \|trail\|, otherwise the buffer is untouched |
| `Player.Echo.Extend` | src/Entities/Echo.cpp:119-124 | a checked candidate joins the trail and becomes the position; the buffer then holds the new trail's point list with count \|trail\|, and the handles are kept |
| `Player.Echo.Update` | src/Entities/Echo.cpp:51-125 | the timer becomes `AccumulateTimer(old, dt)`, so it is below MOVE_INTERVAL; then the same step as `Step`, whatever the timer said |
| `Drifter.DecideMove` | src/Entities/Ghost.cpp:30-34 | a draw from 1..4 yields a moving direction, never NONE, whose ordinal is the draw |
| `Drifter.GhostTrailAfter` | src/Entities/Ghost.cpp:76-109 | a ghost step leaves its trail as it was or appends one cell |
| `Drifter.GhostStepPreservesTrail` | src/Entities/Ghost.cpp:89-109 | every ghost step keeps its trail a non-empty in-bounds unit-step path |
| `Drifter.GhostAvoidsPlayerTrail` | src/Entities/Ghost.cpp:97-109 | a committed ghost step never lands on the player's trail, and lands a unit step from its previous head |
| `Drifter.GhostIgnoresWalls` | src/Entities/Ghost.cpp:89-94 | an out-of-bounds candidate leaves the ghost's trail unchanged (no GAME_OVER path exists) |
| `Drifter.GhostMayRevisit` | src/Entities/Ghost.cpp:97-109 | with no self-check, a ghost trail can revisit a cell and stop being pairwise distinct |
| `Drifter.Ghost.constructor` | src/Entities/Ghost.cpp:21-24 | the start cell is the position and the one-cell trail; timer 0, a fresh, empty, owned buffer |
| `Drifter.Ghost.SetPosition` | include/Entities/Entity.h:36 | the position becomes p and no other field changes |
| `Drifter.Ghost.GenerateTrailGeometry` | src/Entities/Ghost.cpp:36-47 | the buffer ends up as the upload of the ghost trail's point list |
| `Drifter.Ghost.Update` | src/Entities/Ghost.cpp:53-113 | when not RUNNING only the timer changes (by +dt, no reset); otherwise the timer is `AccumulateTimer` and the trail `GhostTrailAfter`; invariants and bounds kept |
| `Coordinator.GameManager.Init` | src/Core/GameManager.cpp:20-50 | state RUNNING; a gridSize by gridSize grid whose buffer holds the line list (4·gridSize + 4 vertices); player at (gridSize/2, gridSize/2) with direction NONE, timer 0 and an empty, count-0 buffer; one ghost at (gridSize/4, gridSize/4) with timer 0 and an empty, count-0 buffer; every buffer acquired and not released (part of `Valid`) |
| `Coordinator.GameManager.SetState` | include/Core/GameManager.h:67 | the state becomes exactly s; the ghost collection is unchanged |
| `Coordinator.GameManager.OnDirectionInput` | src/Core/GameManager.cpp:43-47 | the player's direction becomes d only while RUNNING; otherwise, and for the rest of the player, nothing changes |
| `Coordinator.GameManager.Update` | src/Core/GameManager.cpp:56-76 | not RUNNING: nothing at all changes (GAME_OVER is absorbing). RUNNING: the player steps first; then every ghost takes one update (`Drifter.Advanced`) against the resulting state and player trail, so after a player collision each ghost only gains dt on its timer. The player's direction is kept. The player's buffer holds the new trail's point list with count \|trail\| after a move, and is untouched otherwise. The collection and the grid buffer are unchanged, and every buffer stays acquired and not released (part of `Valid`) |
| `Coordinator.GameManager.UpdateGhosts` | src/Core/GameManager.cpp:69-71 | every ghost, in vector order, takes one update (`Drifter.Advanced`) under its draw. While RUNNING its trail becomes `GhostTrailAfter`, and after a move its buffer holds the new point list with count \|trail\|. When not RUNNING only its timer advances, by dt, and its buffer is untouched |
| `Coordinator.GameManager.StepGhost` | src/Core/GameManager.cpp:70 | ghost i takes one update (`Drifter.Advanced`: trail, timer and buffer); every other ghost and its buffer keep their state |

## Findings

| source | as written | input that shows it | evidently intended | confidence | as-written member | corrected member |
|---|---|---|---|---|---|---|
| src/Game/Grid.cpp:52 | `gridToScreen` returns `Vec2(screenX, screenY)`, and `Vec2` holds `int` fields (include/Entities/Entity.h:11-16). Each float in (-1, 1) is truncated toward zero, to 0. | Grid 10×10, cells (0,0) and (9,9): both give (0,0), so every trail vertex sits at the screen centre | a float pair: (-0.9,-0.9) for (0,0) and (0.9,0.9) for (9,9) | high; not executed | `Game.AsWrittenCornersCoincide` | `Game.GridToScreenInjective` |

The rest of the model uses the corrected real-valued `Game.GridToScreen`.

## Left out

- All `Render()` methods (src/Entities/Echo.cpp:128-160, src/Entities/Ghost.cpp:115-128, `Grid::Render`, `GameManager::Render`) are GPU draw calls. Only one thing from them is noted here: a ghost draws nothing while the game is not RUNNING.
- The renderer, the shaders, the input manager and `GLCommon.h` are OpenGL and GLFW code with no simulation logic. They are not part of this model.
- `InputManager::Update()` inside `GameManager::Update` polls keys. Input arrives as the direction passed to `OnDirectionInput`.
- The Ghost's random generator (`std::mt19937`) is replaced by the `roll` parameter, and a sequence of rolls for the coordinator. No distribution is modelled.
- Floating point is not modelled. `MOVE_INTERVAL`, `moveTimer`, `dt`, the screen coordinates and the line coordinates are `real`, so float rounding and float range are not modelled.
- Integer widths are not modelled. Cell coordinates and `GLsizei` vertex counts are unbounded integers. In bounds this does not matter. A `y + 1` at `INT_MAX`, or a count above 2^31-1, is not modelled.
- The `if (!grid) return;` branches (src/Entities/Echo.cpp:73, src/Entities/Ghost.cpp:57) are left out. The grid is always present: it is a parameter, and the coordinator creates it in `Init`.
- The singleton (`GetInstance`), `unique_ptr` ownership and the window pointer are left out. One `GameManager` object is built explicitly by its `Init` constructor. Exclusive ownership is stated by `Separate()`: every buffer has one owner, and no ghost is listed twice.
- The `Entity` base class is left out because traits are not used. Its fields (`position`, `moveTimer`) and `setPosition` are repeated in `Echo` and `Ghost`. Its constructor is part of each class's constructor. `getPosition`, `getWidth`, `getHeight`, `getState` and `getPlayerEcho` are plain reads of the fields `position`, `grid.width`, `grid.height`, `state` and `player`.
- GPU handles are abstract. They are the `acquired`/`released` flags of `Buffer`. `Bind`/`Unbind` change no stored field, and their effect on the GL context is not modelled. The unused `m_VAO`/`m_VBO` fields of `Grid` and its empty destructor are left out.
- Logging through `std::cout` is left out.
- src/Game/Grid.cpp after line 88 is a pasted conversation transcript with superseded copies of other files. It is not the implementation and is not part of this model. The only exception is the final `Grid::Render`, a single draw call.
