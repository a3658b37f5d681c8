# Dungeon crawler core, modelled in Dafny

This project models the core of a small tile-based dungeon crawler. It
covers:

- the level: a rectangular grid of tiles, the entities keyed by cell, one
  player, and the enemy counters;
- the level's movement, entity-removal and damage rules, and the loader
  that turns rows of digit codes into tiles and spawns;
- the precision minigame that decides a fight: a marker sweeps a track and
  an input inside the centred target zone wins;
- the tile and entity records, with their screen-offset arithmetic;
- the per-event dispatch of the main loop.

Layout:

- `types.dfy` (`Types`): the enumerations `TileType`, `EntityType`,
  `ItemType`, `Direction` and the posted `Event`s.
- `tile.dfy` (`Tiles`) and `entity.dfy` (`Entities`): the records, which are
  pure values.
- `level.dfy` (`Levels`): the level's rules as functions on a `LevelState`
  value, with lemmas about them. It also holds the `Level` and `Player`
  classes. These hold the same state in fields and update it in place; each
  `Level` method is proved to move the state exactly as its function says
  and to keep the level invariant `WellFormed`.
- `minigame.dfy` (`Minigames`): the `PrecisionMinigame` class and the pure
  facts about its track and target zone.
- `game_loop.dfy` (`GameLoop`): the dispatch rule as a step function over
  `State`, and the loop as methods that drive a `Level`. The event stream is
  a finite sequence of per-frame batches.

Posting a custom event appends it to a `posted` log. Calling an entity's
`interact()` appends that entity to an `interactions` log.

## Model

| member | source | states |
|---|---|---|
| Types.TileTypeOfCode | game/level/level.py:120-124 | codes 0, 1 and 2 give the tile type with that enum value; any other code falls back to GROUND |
| Types.TileTypeCodeRoundTrip | game/level/types.py:11-14 | decoding a tile type's own enum value gives that type back |
| Types.DigitValue | game/level/level.py:120 | `int` of a decimal digit lies in 0..9 and converts back to the same character |
| Tiles.Tile.Pos | game/level/tile.py:7-16 | `pos` is the stored (row, col), and together with the type it rebuilds the tile, so the record keeps its constructor arguments unchanged |
| Tiles.Tile.Walkable | game/level/tile.py:18-20 | no contract of its own; its body is the definition: a tile is walkable unless its type is WALL (the properties are in `Tiles.WalkableIffNotWall`) |
| Tiles.CellOffset | game/level/tile.py:26-29 | no contract of its own; its body is the definition: x from the column and y from the row, each relative to the viewport's top-left and scaled by the tile size |
| Tiles.TileBlit | game/level/tile.py:22-30 | no contract of its own; its body is the definition: nothing without an image, otherwise a blit at the cell offset |
| Tiles.WalkableIffNotWall | game/level/tile.py:18-20 | a tile is walkable iff it is GROUND or HAZARD, so of the codes the loader reads only code 1 gives a non-walkable tile |
| Tiles.OffsetAtTopLeft | game/level/tile.py:26-29 | the tile at the viewport's top-left cell is drawn at pixel (0, 0) |
| Tiles.OffsetStep | game/level/tile.py:26-29 | one column right moves x by exactly one tile size and keeps y; one row down moves y by one tile size and keeps x |
| Tiles.OffsetInjective | game/level/tile.py:26-29 | with a positive tile size, two different cells never share a drawing offset |
| Tiles.TileBlitSpec | game/level/tile.py:22-30 | rendering draws nothing exactly when there is no image; otherwise the tile at the top-left cell is drawn at the origin |
| Entities.Entity.Pos | game/level/entity.py:11-22 | `pos` is the stored (row, col), and together with the type it rebuilds the entity |
| Entities.Margin | game/level/entity.py:31-34 | no contract of its own; its body is the definition: half the difference between the tile size and the entity size, floored |
| Entities.EntityOffset | game/level/entity.py:30-35 | no contract of its own; its body is the definition: the cell offset plus the margin on each axis |
| Entities.EntityBlit | game/level/entity.py:24-36 | no contract of its own; its body is the definition: nothing without an image, otherwise a blit at the entity offset |
| Entities.EntityOffsetIsCentredTileOffset | game/level/entity.py:28-35 | an entity is drawn at its cell's tile offset plus the same centring margin on both axes |
| Entities.MarginFitsCell | game/level/entity.py:28-35 | when the entity image is no larger than a tile, the margin lies between 0 and half a tile and the image ends inside its cell |
| Entities.EntityBlitSpec | game/level/entity.py:24-35 | rendering draws nothing exactly when there is no image; an entity on the top-left cell is drawn at (margin, margin) |
| Levels.TileExists | game/level/level.py:104-105 | no contract of its own; its body is the definition: the row is below the height and the column below the width, where the width is the first row's length |
| Levels.TileAt | game/level/level.py:37-40 | no contract of its own; its body is the definition (its properties are in `Levels.TileAtSpec`) |
| Levels.TargetTile | game/level/level.py:86-99 | no contract of its own; its body is the definition: the tile at the player's cell plus the direction's offset (see `Levels.TargetIsNeighbour`) |
| Levels.CanMoveTo | game/level/level.py:101-102 | no contract of its own; its body is the definition: the target is walkable |
| Levels.Move | game/level/level.py:53-61 | no contract of its own; its body is the definition of a movement (its properties are in `Levels.MoveOutcomes`, `Levels.MoveNeverOntoWall` and `Levels.MoveKeepsWellFormed`) |
| Levels.Remove | game/level/level.py:63-76 | no contract of its own; its body is the definition of a removal (its properties are in `Levels.RemoveSpec` and the lemmas after it) |
| Levels.Damage | game/level/level.py:78-81 | no contract of its own; its body is the definition of taking damage (its properties are in `Levels.DamageSpec`) |
| Levels.TopLeft | game/level/level.py:33-35 | no contract of its own; its body is the definition: the player's cell less half the viewport on each axis, not clamped |
| Levels.TileVisible | game/level/level.py:107-111 | no contract of its own; its body is the definition, with both bounds inclusive (see `Levels.VisibleIffNearPlayer`) |
| Levels.DistToPlayer | game/level/level.py:83-84 | no contract of its own; its body is the definition: the larger of the row and column distances to the player |
| Levels.EnemySpawns | game/level/level.py:132-137 | no contract of its own; its body is the definition: an enemy on every code-2 cell |
| Levels.Loaded | game/level/level.py:113-137 | no contract of its own; its body is the definition of a freshly loaded level (see `Levels.LoadedWellFormed`) |
| Levels.Player.constructor | game/level/level.py:130-131 | the new player stands on the given cell with the given health and an empty inventory |
| Levels.TileAtSpec | game/level/level.py:37-40 | the lookup never fails and answers with a tile carrying the asked coordinates: the stored tile on the grid, a WALL tile off it; a walkable answer is always on the grid |
| Levels.DirectionVector | game/level/level.py:87-94 | every direction's offset is one unit along exactly one axis |
| Levels.DirectionVectorInjective | game/level/level.py:86-94 | different directions give different offsets |
| Levels.TargetIsNeighbour | game/level/level.py:86-99 | the target tile sits at the player's cell plus the direction's offset, at distance exactly one from the player |
| Levels.MoveOutcomes | game/level/level.py:53-61 | a movement has exactly one of three outcomes: an entity on the target cell is interacted with and the player stays; otherwise a walkable target on the grid is stepped onto; otherwise nothing changes |
| Levels.MoveNeverOntoWall | game/level/level.py:59-61 | after a movement the player is still on the grid, and a player who moved did not move onto a WALL tile |
| Levels.MoveKeepsWellFormed | game/level/level.py:53-61 | a movement keeps the level invariant and changes only the player's position and the interaction log |
| Levels.Level.HandleMovement | game/level/level.py:53-61 | the level's fields change exactly as the movement rule says, and the invariant is kept |
| Levels.RemoveSpec | game/level/level.py:63-76 | removal deletes exactly the entity's key; the enemy counter drops by one iff an enemy is removed; a key item is added iff a key is removed; LEVEL_CLEARED is posted iff the counter is then at most zero; nothing else changes |
| Levels.EnemyCellsRemove | game/level/level.py:66-71 | deleting a key removes that cell from the enemy cells, so their number drops by one iff the deleted entity was an enemy |
| Levels.RemoveKeepsWellFormed | game/level/level.py:63-71 | removal keeps the invariant; in particular the enemy counter still equals the number of enemies on the map |
| Levels.LevelClearedIffNoEnemyLeft | game/level/level.py:75-76 | a removal posts LEVEL_CLEARED exactly when no enemy is left on the map afterwards, and posts nothing otherwise |
| Levels.LastEnemyClearsLevel | game/level/level.py:66-76 | removing an enemy posts LEVEL_CLEARED iff it was the only enemy left |
| Levels.RemovedCellIsFree | game/level/level.py:71 | the removed cell is no longer a key, and the entity map is one entry smaller |
| Levels.RemovedEntityNotMetAgain | game/level/level.py:53-76 | after a removal, a movement towards the freed cell interacts with nothing, and it moves the player there exactly when the cell's tile is walkable |
| Levels.Level.RemoveEntity | game/level/level.py:63-76 | the level's fields and the player's inventory change exactly as the removal rule says, and the invariant is kept |
| Levels.DamageSpec | game/level/level.py:78-81 | health drops by exactly one; GAME_OVER is posted iff the new health is at most zero; nothing else changes; the invariant is kept |
| Levels.Level.DamageReceived | game/level/level.py:78-81 | the player's health and the event log change exactly as the damage rule says, and the invariant is kept |
| Levels.PlayerAtViewportCentre | game/level/level.py:33-35 | the player's own cell is always visible and is drawn at the viewport's centre cell |
| Levels.VisibleIffNearPlayer | game/level/level.py:107-111 | for a square viewport of even side n, a cell is visible exactly when its distance to the player is at most n / 2 |
| Levels.DistZeroIffPlayerCell | game/level/level.py:83-84 | the distance to the player is zero exactly on the player's own cell |
| Levels.ParseRow | game/level/level.py:119-126 | parsing a row gives one tile per character |
| Levels.ParseGrid | game/level/level.py:117-118 | the grid gets one row per line of the map text |
| Levels.CodeCellsCount | game/level/level.py:132-137 | the number of cells that hold a code equals the number of times the code occurs, counted row by row |
| Levels.LastPlayerCodeUnique | game/level/level.py:130-131 | the player cell the loader keeps, the last player code in scan order, is unique |
| Levels.LoadedWellFormed | game/level/level.py:113-137 | a freshly loaded level satisfies the invariant, and both enemy counters equal the number of enemies spawned, which is the number of code-2 digits |
| Levels.PlayerStartsOnWall | game/level/level.py:120-131 | the player's start cell always holds a WALL tile |
| Levels.OtherCodesLoadAsGround | game/level/level.py:120-153 | every code other than 1 and 2 loads as a GROUND tile with no entity |
| Levels.ScannedAllPlayer | game/level/level.py:117-131 | after the whole scan a player has been created, on the last player code |
| Levels.ScannedAllEnemies | game/level/level.py:132-137 | after the whole scan the entity map holds exactly one enemy per code 2, and the counter equals their number |
| Levels.ScanRow | game/level/level.py:119-137 | one row's pass yields that row's tiles, adds the row's enemies to the map and to both counters, and keeps the last player code seen |
| Levels.ScanMap | game/level/level.py:113-137 | the whole scan yields the parsed grid, an enemy on every code 2 with both counters equal to their number, and the last player code's cell |
| Levels.Level.Load | game/level/level.py:16-23 | a loaded level holds exactly the parsed map state, with the player on the last player code, and satisfies the invariant |
| Minigames.TargetWidth | game/minigame.py:67 | the target width is the least integer at least 30% of the track width |
| Minigames.SurfaceWidth | game/minigame.py:23-25 | no contract of its own; its body is the definition: a quarter of the window's width, floored |
| Minigames.SurfaceHeight | game/minigame.py:27-29 | no contract of its own; its body is the definition: a quarter of the window's height, floored |
| Minigames.ZoneStart | game/minigame.py:88 | no contract of its own; its body is the definition: half the track left over by the zone, floored |
| Minigames.InZone | game/minigame.py:87-91 | no contract of its own; its body is the definition: the marker lies between the zone's ends, both included |
| Minigames.InputEvent | game/minigame.py:86-96 | no contract of its own; its body is the definition (its properties are in `Minigames.InputEventSpec`) |
| Minigames.InputEventSpec | game/minigame.py:86-96 | an input posts ENEMY_DEFEATED with the enemy's cell iff the marker is inside the zone with both ends included, and DAMAGE_RECEIVED otherwise |
| Minigames.ZoneInsideTrack | game/minigame.py:88-90 | on a nonempty track the target zone is nonempty and lies within the track |
| Minigames.MarkerAfter | game/minigame.py:84 | the marker always stays on the track |
| Minigames.MarkerBeforeWrap | game/minigame.py:84 | until it wraps, the marker sits at twice the number of frames |
| Minigames.ZoneReachable | game/minigame.py:84-90 | on every nonempty track some frame puts the marker inside the target zone, so a well-timed input can always win |
| Minigames.PrecisionMinigame.constructor | game/minigame.py:62-67 | a new minigame is not started, its marker is at 0, its track is a quarter of the window and its zone is 30% of the track rounded up |
| Minigames.PrecisionMinigame.Start | game/minigame.py:43-45 | start sets the started flag and changes nothing else |
| Minigames.PrecisionMinigame.Advance | game/minigame.py:84 | each frame moves the marker two pixels on, modulo the track width, and the marker stays on the track |
| Minigames.PrecisionMinigame.Input | game/minigame.py:86-96 | an input posts exactly one event, chosen by the zone test, and changes nothing else |
| GameLoop.QuitStops | game/main.py:48-49 | a quit stops the loop from any state |
| GameLoop.Dispatch | game/main.py:48-59 | no contract of its own; its body is the definition of the rule for one event (its properties are in the lemmas that follow) |
| GameLoop.Drain | game/main.py:47-59 | no contract of its own; its body is the definition: the rule applied to a batch's events in order |
| GameLoop.Play | game/main.py:46-59 | no contract of its own; its body is the definition: frames run while the state is not STOPPED and batches remain |
| GameLoop.DispatchTransitions | game/main.py:48-59 | the only state change the rule makes is to STOPPED, and it makes it exactly on a quit |
| GameLoop.MovementIffRunningBoundKey | game/main.py:51-54 | a movement is issued exactly for a bound key pressed while running, with that key's direction |
| GameLoop.OverlayIgnoresEvents | game/main.py:58-59 | in the overlay state every event except a quit is ignored |
| GameLoop.StoppedIgnoresRest | game/main.py:47-59 | once stopped, the rest of the batch has no effect |
| GameLoop.OverlayIssuesNothing | game/main.py:58-59 | a batch handled in the overlay state issues no action |
| GameLoop.DrainStopsIffQuit | game/main.py:47-49 | after a batch the state is unchanged or STOPPED, and it is STOPPED iff it already was or the batch holds a quit |
| GameLoop.PlayStopsAfterQuitFrame | game/main.py:46-49 | from RUNNING the loop ends STOPPED iff some batch holds a quit; it then runs exactly up to that batch's frame, and it never reaches the overlay state |
| GameLoop.ApplyActions | game/main.py:52-54 | movements issued by the loop never change the level's grid |
| GameLoop.ApplyActionsAppend | game/main.py:47-54 | applying two runs of actions in turn is the same as applying them joined |
| GameLoop.HandleEvent | game/main.py:48-59 | one event changes the loop state and the level exactly as the rule says, and keeps the level invariant |
| GameLoop.ProcessBatch | game/main.py:47-59 | one frame's batch leaves the state, the regeneration count and the level exactly as the rule applied event by event says |
| GameLoop.Run | game/main.py:46-59 | the loop from RUNNING over a stream of batches ends in the state, after the number of frames, and with the level that the step function gives |

## Left out

- Rendering is not modelled: `Level.render`, the drawing calls of the tile, entity and minigame renderers, and `game/overlay.py`. Only the offset arithmetic and the "no image, no drawing" rule are kept.
- `get_darkness_overlay` is not modelled, because it uses random alpha values and pygame surfaces. Its regeneration on the overlay timer is recorded as a `RegenerateOverlay` action and counted.
- Window setup, the clock and frame pacing are not modelled. The event queue is a finite sequence of per-frame batches.
- Image loading from `game/assets.py` is not modelled. An image is an opaque `Image` handle passed to the render functions.
- The render functions keep the `asset is None` branch (game/level/tile.py:23, game/level/entity.py:25), modelled as `None`. The shown asset registry never returns `None`: it raises on a type it has no image for. So the branch cannot be reached in the shown code.
- `post_event` is modelled as appending to a `posted` log. Delivery is not modelled.
- The level and each minigame keep separate `posted` logs, while the game has a single event queue. The relative order of level events and minigame events is not modelled.
- The texts attached to LEVEL_CLEARED and GAME_OVER are not modelled. They come from a text provider that is not part of this model.
- Opening the map file is not modelled. The loader takes the file's lines with all surrounding whitespace already removed, as `line.strip()` does.
- Levels.Level.Load: accepts only rows of the digits 0, 1, 2 and 4 to 9.
  - A non-digit makes `int()` raise outside the `try` (game/level/level.py:120).
  - Code 3 is LOOT, which falls through to a test against an entity kind, SIGN, that the shown `EntityType` enumeration does not define (game/level/level.py:138).
  - Codes 4 to 9 have no entity type, so the `try` swallows the error (game/level/level.py:152-153). They load as GROUND tiles with no entity, and the model does the same.
  - As written, code 0 (EMPTY) also reaches the SIGN test. The model gives it its evident meaning: a GROUND tile with no entity.
- Levels.Level.Load: requires every row to be as long as the first, and at least one player code. Without a player code the level has no player.
  - The source accepts a later row longer than the first, because the width is the first row's length (game/level/level.py:27, 105). The extra cells then count as off the grid.
  - The model leaves such maps out.
  - A shorter later row would make the tile lookup index past its end.
- The `Player`, `Enemy`, `Key`, `Sign`, `Tree` and `Door` classes are not part of this model. `interact()` is only recorded in the `interactions` log. The player is a record of position, health and inventory: health starts at a given value and the inventory starts empty. `Key` exists as an entity type only because the removal rule tests for it.
- The rule's reliance on objects being truthy is taken as given: a stored entity and a looked-up tile always count as present.
- Levels.Level.RemoveEntity: requires the entity's cell to be a key of the entity map. The source raises KeyError otherwise (game/level/level.py:66), for example on a second removal of the same entity; that error path is not modelled.
- Levels.Remove: requires the entity's cell to be a key of the entity map, for the same KeyError at game/level/level.py:66.
- Minigames.PrecisionMinigame.Advance: requires a nonempty track, because the step divides by the track width and would raise on a zero width.
- Minigames.TargetWidth: models the floating-point `ceil(width * 0.3)` as the integer `(3 * width + 9) / 10`. This assumes the float product rounds the same way for the window sizes in use.
- The key bindings are not modelled as constants, because their values are pygame key codes. The controls map is a parameter of the loop.
- The viewport's top-left is not clamped to the map (game/level/level.py:33-35), and the model follows the code.
- LEVEL_CLEARED is re-posted on every removal while the enemy counter is at most zero, including removals of non-enemies (game/level/level.py:75-76). The model follows the code and does not post it only once.
- `TileVisible` follows the code's inclusive bounds: entities in one row and one column beyond the drawn tiles count as visible.
- Debug logging is not modelled.
