# Tile-grid movement of a 2D platformer with rotating gravity

This project models the game logic of a 2D platformer. The player, a thrown
bomb and an enemy move on an integer tile grid. Gravity can point down, up,
right or left, and it changes at random during play. Every mover stands on a
tile index plus a count of microsteps inside that tile. A mover moves one
microstep at a time and is clamped at the grid edges. It asks a two-cell
passability check before it accepts a cell, and its jumps and falls walk the
cells one at a time until the first cell the check refuses.

The model covers these parts of the game:

- `Grid`: the tile map (CMap2D) as the movers read and write it.
- `Frame`: the gravity directions and the direction vectors relative to gravity (CPhysics2D).
- `Physics`: the integrator (CPhysics2D).
- `Mover`: the clamp, probe and walk logic the player and the bomb share.
- `Game`: the inventory counters and the game manager's flags.
- `Player` (CPlayer2D), `Bomb` (CBomb2D) and `Enemy` (CEnemy2D).
- `Entities`: the entity table with its per-frame update and collision loop (CEntityManager2D).
- `Spawner`: the item spawner that drops items beside platforms (CItemSpawner2D).

Objects whose fields the game updates in place are classes: the movers, the
integrator, the shared gravity, the map, the inventory, the game manager, the
entity manager and the spawner. Each method is specified against a pure
function of the old state. What the game promises is proved as lemmas about
those functions. Examples:

- the walks stop at the first refused cell;
- a bomb clears at most one tile;
- the enemy's state machine can never leave BOMB_SEARCH;
- a spawn writes one empty tile beside a platform.

The method contracts are stated against reference definitions, which are pure
functions that the lemmas reason about. Those without a contract of their own
have no row in the table, so they are listed here:

- `Bomb.BombWalk` is the bomb's fall loop (Bomb2D.cpp:158-189).
- `Enemy.Next` is one frame of the enemy's state machine (Enemy2D.cpp:189-332).
- `Enemy.EnemyPassable` is the enemy's CheckPosition verdict (Enemy2D.cpp:561-672).
- `Enemy.SearchEnd` is where the BOMB_SEARCH walk leaves the enemy (Enemy2D.cpp:213-235).
- `Spawner.Spaces`, with `Rows` and `Columns`, is the spawner's search for free cells (ItemSpawner.cpp:100-113).

`Entities.Sweep`, the manager's Update, has a row of its own.

All paths in the table below are relative to the repository root.

## Model

| member | source | states |
|---|---|---|
| Grid.TileGrid.PutAt | NYP_Framework_Week16_SOLUTION/App/Source/Scene2D/ItemSpawner.cpp:115 | a SetMapInfo write changes the addressed cell when it lies on the grid and no other cell |
| Grid.Map2D.Set | NYP_Framework_Week16_SOLUTION/App/Source/Scene2D/Enemy2D.cpp:134 | SetMapInfo(row, col, v): the cell (row, col) holds v afterwards and every other cell is unchanged |
| Grid.Map2D.FindValue | NYP_Framework_Week16_SOLUTION/App/Source/Scene2D/Enemy2D.cpp:130-131 | FindValue reports success exactly when some cell holds the value, and then returns the coordinates of such a cell |
| Game.TileIds.LabelsDistinct | NYP_Framework_Week16_SOLUTION/App/Source/Scene2D/Player2D.cpp:1147-1211 | the tile ids the player's InteractWithMap switch tells apart (small bomb, double-jump power-up, exit 99, acid) are pairwise distinct |
| Frame.FromOrdinal | NYP_Framework_Week16_SOLUTION/App/Source/Scene2D/Physics2D.h:16-38 | every ordinal 0..3 names the gravity direction with that enum value |
| Frame.GravityIsUnit | NYP_Framework_Week16_SOLUTION/App/Source/Scene2D/Physics2D.cpp:101-119 | the gravity vector is a unit axis vector; it has no x component exactly when gravity is vertical; it points to -1 exactly for DOWN and LEFT |
| Frame.RelativeDirections | NYP_Framework_Week16_SOLUTION/App/Source/Scene2D/Physics2D.cpp:166-191 | every relative direction is a unit axis vector; UP opposes gravity; DOWN equals gravity under vertical gravity but equals UP under sideways gravity |
| Frame.SidewaysAcrossGravity | NYP_Framework_Week16_SOLUTION/App/Source/Scene2D/Physics2D.cpp:166-191 | relative LEFT is the negation of relative RIGHT, and both lie across the gravity axis |
| Frame.DownIsUpUnderSidewaysGravity | NYP_Framework_Week16_SOLUTION/App/Source/Scene2D/Physics2D.cpp:187-188 | relative DOWN coincides with relative UP exactly under sideways gravity, and opposes it exactly under vertical gravity |
| Frame.DownStepUnderSidewaysGravity | NYP_Framework_Week16_SOLUTION/App/Source/Scene2D/Physics2D.cpp:187-188 | under LEFT or RIGHT gravity one relative-DOWN step goes against gravity |
| Physics.PeakMeansNoUpwardSpeed | NYP_Framework_Week16_SOLUTION/App/Source/Scene2D/Physics2D.cpp:138-164 | the jump peak is reached exactly when the velocity's component along relative UP is not positive |
| Physics.Reset | NYP_Framework_Week16_SOLUTION/App/Source/Scene2D/Physics2D.cpp:39-49 | Init zeroes velocities, displacements and time and keeps acceleration and status |
| Physics.WithStatus | NYP_Framework_Week16_SOLUTION/App/Source/Scene2D/Physics2D.cpp:88-99 | setting the current status changes nothing; a new status re-initialises the integrator first |
| Physics.StatusIdempotent | NYP_Framework_Week16_SOLUTION/App/Source/Scene2D/Physics2D.cpp:88-99 | setting a status twice is the same as setting it once |
| Physics.Integrate | NYP_Framework_Week16_SOLUTION/App/Source/Scene2D/Physics2D.cpp:237-250 | an idle integrator is unchanged; otherwise the next initial velocity is v + g t, and time, status and acceleration are kept |
| Physics.IdleIntegrationIsIdentity | NYP_Framework_Week16_SOLUTION/App/Source/Scene2D/Physics2D.cpp:241-242 | any number of updates leaves an idle integrator as it was |
| Physics.Gravity.constructor | NYP_Framework_Week16_SOLUTION/App/Source/Scene2D/Physics2D.cpp:11-13 | the shared gravity starts as DOWN with magnitude 1.1 |
| Physics.Physics2D.constructor | NYP_Framework_Week16_SOLUTION/App/Source/Scene2D/Physics2D.cpp:18-27 | a new integrator is idle, at rest and at time 0 |
| Physics.Physics2D.Init | NYP_Framework_Week16_SOLUTION/App/Source/Scene2D/Physics2D.cpp:39-49 | Init always succeeds and leaves the reset state |
| Physics.Physics2D.SetStatus | NYP_Framework_Week16_SOLUTION/App/Source/Scene2D/Physics2D.cpp:88-99 | the state becomes WithStatus of the old state |
| Physics.Physics2D.SetInitialVelocity | NYP_Framework_Week16_SOLUTION/App/Source/Scene2D/Physics2D.cpp:58-61 | only the initial velocity changes |
| Physics.Physics2D.AddElapsedTime | NYP_Framework_Week16_SOLUTION/App/Source/Scene2D/Physics2D.cpp:253-256 | time grows by exactly the argument and nothing else changes |
| Physics.Physics2D.Update | NYP_Framework_Week16_SOLUTION/App/Source/Scene2D/Physics2D.cpp:237-250 | the state becomes one integration step under the shared gravity vector |
| Physics.Physics2D.SetGravityDirection | NYP_Framework_Week16_SOLUTION/App/Source/Scene2D/Physics2D.cpp:133-136 | the direction seen by every instance changes and the magnitude is kept |
| Physics.Physics2D.SetGravityMagnitude | NYP_Framework_Week16_SOLUTION/App/Source/Scene2D/Physics2D.cpp:51-54 | the magnitude seen by every instance changes and the direction is kept |
| Mover.Clamp | NYP_Framework_Week16_SOLUTION/App/Source/Scene2D/Player2D.cpp:641-680 | at or past the edge on the moving side, the index is set to that edge and its microstep to 0; otherwise nothing changes; the result never lies past that edge |
| Mover.ClampIdempotent | NYP_Framework_Week16_SOLUTION/App/Source/Scene2D/Player2D.cpp:641-680 | clamping twice is clamping once |
| Mover.ClampIsOneSided | NYP_Framework_Week16_SOLUTION/App/Source/Scene2D/Player2D.cpp:641-680 | clamping towards the positive end never pulls back an index that lies past the negative end |
| Mover.Probes | NYP_Framework_Week16_SOLUTION/App/Source/Scene2D/Player2D.cpp:686-769 | the two probed cells lie on the leading row or column; the second is the neighbour across the other axis only when the sprite overlaps it |
| Mover.ProbesAtRest | NYP_Framework_Week16_SOLUTION/App/Source/Scene2D/Player2D.cpp:686-769 | a mover at rest inside its tile probes only that tile, in every direction |
| Mover.ProbesIgnoreSignWhenAligned | NYP_Framework_Week16_SOLUTION/App/Source/Scene2D/Player2D.cpp:686-769 | with no microsteps on the moving axis, both directions along that axis probe the same cells |
| Mover.CheckedMicro | NYP_Framework_Week16_SOLUTION/App/Source/Scene2D/Player2D.cpp:686-769 | a position that has left the grid loses its microsteps on the moving axis; any other position keeps them |
| Mover.FirstBlocked | NYP_Framework_Week16_SOLUTION/App/Source/Scene2D/Player2D.cpp:1018-1057 | the refused cell a walk reports lies between its start and its last cell |
| Mover.StopCellIsRefused | NYP_Framework_Week16_SOLUTION/App/Source/Scene2D/Player2D.cpp:1018-1057 | the cell a walk stops at is one CheckPosition refuses |
| Mover.PassableBeforeStop | NYP_Framework_Week16_SOLUTION/App/Source/Scene2D/Player2D.cpp:1018-1057 | every cell a walk visits before its stop cell is passable |
| Mover.LastPassable | NYP_Framework_Week16_SOLUTION/App/Source/Scene2D/Player2D.cpp:1018-1057 | a walk from a passable cell stops past that cell, and the cell just before the stop is passable and lies within the walk |
| Mover.FirstBlockedStep | NYP_Framework_Week16_SOLUTION/App/Source/Scene2D/Player2D.cpp:1018-1057 | a passable cell hands the walk on to the next cell, and a refused cell ends it there |
| Mover.WrongSideIsClear | NYP_Framework_Week16_SOLUTION/App/Source/Scene2D/Player2D.cpp:1021 | a walk whose last cell lies behind its start checks no cell |
| Mover.SideIsRelativeVector | NYP_Framework_Week16_SOLUTION/App/Source/Scene2D/Player2D.cpp:641-680 | the world side a relative direction acts on is the one its vector under gravity points to |
| Mover.SidesLieOnWalkAxis | NYP_Framework_Week16_SOLUTION/App/Source/Scene2D/Player2D.cpp:853-911 | relative UP and DOWN act on the walk axis: y under vertical gravity and x otherwise; the jump walk steps the way relative UP points |
| Mover.FallSetup | NYP_Framework_Week16_SOLUTION/App/Source/Scene2D/Player2D.cpp:990-1017 | a fall walk runs on the walk axis from the old index, one step at a time in the direction of gravity, to the clamped proposed index with its microstep zeroed |
| Mover.LeftwardFallIsNotClamped | NYP_Framework_Week16_SOLUTION/App/Source/Scene2D/Player2D.cpp:1074-1080 | under LEFT gravity a fall past column 0 is not pulled back onto the grid, because relative DOWN points to +x there |
| Mover.WorldOf | NYP_Framework_Week16_SOLUTION/App/Source/Scene2D/Player2D.cpp:641-680 | the branch that a unit direction selects gives back that direction vector |
| Player.RowsAreGridEdges | NYP_Framework_Week16_SOLUTION/App/Source/Scene2D/Player2D.cpp:772-816 | on the grid, the bottom row is where one step along gravity leaves the grid, and the top row is where one step against gravity does |
| Player.SidewaysMidAirLooksUp | NYP_Framework_Week16_SOLUTION/App/Source/Scene2D/Player2D.cpp:819-835 | under sideways gravity the mid-air test reads the tile on the relative-UP side |
| Player.StepMicro | NYP_Framework_Week16_SOLUTION/App/Source/Scene2D/Player2D.cpp:484-634 | a step never touches the other axis, and a step past the moving edge does nothing |
| Player.StepMovesOneMicrostep | NYP_Framework_Week16_SOLUTION/App/Source/Scene2D/Player2D.cpp:492-559 | except upwards on y, a step moves the position exactly one microstep towards its side and keeps the count within a tile |
| Player.UpStepReachesTileSize | NYP_Framework_Week16_SOLUTION/App/Source/Scene2D/Player2D.cpp:561-593 | an upward step can leave the microstep count at NUM_STEPS_PER_TILE_YAXIS, because the carry test there is `>` |
| Player.UpStepFromTileSizeStalls | NYP_Framework_Week16_SOLUTION/App/Source/Scene2D/Player2D.cpp:561-593 | the upward step after that moves to the next tile without advancing the position |
| Player.MovePos | NYP_Framework_Week16_SOLUTION/App/Source/Scene2D/Player2D.cpp:484-634 | an accepted step ends at the clamped stepped position; a refused one goes back to the old index with the moving axis's microstep zeroed |
| Player.RefusedMoveLosesMicrosteps | NYP_Framework_Week16_SOLUTION/App/Source/Scene2D/Player2D.cpp:506-510 | a refused move does not restore the starting position when it had microsteps on the moving axis |
| Player.AcceptedMoveIsPassable | NYP_Framework_Week16_SOLUTION/App/Source/Scene2D/Player2D.cpp:484-634 | a move that changes the index ends on a position CheckPosition accepts |
| Player.FallEndsPassable | NYP_Framework_Week16_SOLUTION/App/Source/Scene2D/Player2D.cpp:1018-1057 | a fall from a passable cell ends on a passable cell between the start and the proposed cell |
| Player.JumpRefusedAtStartStepsBack | NYP_Framework_Week16_SOLUTION/App/Source/Scene2D/Player2D.cpp:880-910 | a jump refused at its first cell ends one cell behind its start, on the gravity side |
| Player.JumpRefusedLaterEndsPassable | NYP_Framework_Week16_SOLUTION/App/Source/Scene2D/Player2D.cpp:880-910 | a jump refused after its first cell ends on the last cell it passed, which is passable |
| Player.JumpSetup | NYP_Framework_Week16_SOLUTION/App/Source/Scene2D/Player2D.cpp:853-878 | a jump walk runs on the walk axis from the old index towards relative UP, to the clamped proposed index with its microstep zeroed |
| Player.JumpMotion | NYP_Framework_Week16_SOLUTION/App/Source/Scene2D/Player2D.cpp:842-978 | a jump keeps going exactly when its walk was not refused and the peak is not reached; otherwise it falls |
| Player.FallMotion | NYP_Framework_Week16_SOLUTION/App/Source/Scene2D/Player2D.cpp:980-1135 | a fall becomes IDLE exactly when its walk was refused or it is on the bottom row; otherwise it is one integration step |
| Player.JumpDecision | NYP_Framework_Week16_SOLUTION/App/Source/Scene2D/Player2D.cpp:283-314 | a first jump happens exactly from IDLE; an extra jump needs a double jump and either JUMP, or FALL with fewer than two jumps |
| Player.RisingJumpsAreUnlimited | NYP_Framework_Week16_SOLUTION/App/Source/Scene2D/Player2D.cpp:297-299 | while rising the jump count sets no limit, but while falling two jumps do |
| Player.OtherOrdinals | NYP_Framework_Week16_SOLUTION/App/Source/Scene2D/Player2D.cpp:245-250 | the three remaining ordinals are valid and none is the current gravity's |
| Player.RotatedGravity | NYP_Framework_Week16_SOLUTION/App/Source/Scene2D/Player2D.cpp:245-265 | a rotation always changes the gravity direction |
| Player.RotationReachesEveryOther | NYP_Framework_Week16_SOLUTION/App/Source/Scene2D/Player2D.cpp:245-265 | every other direction is reached by some pick |
| Player.Player2D.constructor | NYP_Framework_Week16_SOLUTION/App/Source/Scene2D/Player2D.cpp:31-53 | a new player stands at index 0 with no microsteps and no jumps |
| Player.Player2D.Constraint | NYP_Framework_Week16_SOLUTION/App/Source/Scene2D/Player2D.cpp:641-680 | the position is clamped towards the world side the direction acts on; nothing else changes |
| Player.Player2D.CheckPosition | NYP_Framework_Week16_SOLUTION/App/Source/Scene2D/Player2D.cpp:686-769 | the verdict is Passable on the side the direction acts on; the index is kept; only CheckedMicro changes the microsteps |
| Player.Player2D.Step | NYP_Framework_Week16_SOLUTION/App/Source/Scene2D/Player2D.cpp:492-627 | the position becomes StepMicro of the old position |
| Player.Player2D.Move | NYP_Framework_Week16_SOLUTION/App/Source/Scene2D/Player2D.cpp:484-634 | the old index is saved, the position becomes MovePos, and walking off a ledge when not jumping starts a fall |
| Player.Player2D.FallIfMidAir | NYP_Framework_Week16_SOLUTION/App/Source/Scene2D/Player2D.cpp:513-516 | a player in mid-air who is not jumping starts to fall; otherwise the integrator is unchanged |
| Player.Player2D.JumpWalk | NYP_Framework_Week16_SOLUTION/App/Source/Scene2D/Player2D.cpp:880-910 | the walk reports the first refused cell and leaves the index at JumpEnd: one step back from it |
| Player.Player2D.FallWalk | NYP_Framework_Week16_SOLUTION/App/Source/Scene2D/Player2D.cpp:1018-1057 | the walk reports the first refused cell and leaves the index at FallEnd: one step back, unless it was the start |
| Player.Player2D.Scan | NYP_Framework_Week16_SOLUTION/App/Source/Scene2D/Player2D.cpp:1018-1057 | the loop shared by both walks reports WalkResult, the first cell CheckPosition refuses on the map as it stands, and leaves the index on that cell, or on the last cell when none is refused |
| Player.Player2D.Displace | NYP_Framework_Week16_SOLUTION/App/Source/Scene2D/Player2D.cpp:1005-1011 | a walk's set-up moves the index on the walk axis, zeroes that microstep and clamps |
| Player.Player2D.JumpUpdate | NYP_Framework_Week16_SOLUTION/App/Source/Scene2D/Player2D.cpp:842-978 | the position becomes JumpPos and the integrator JumpMotion |
| Player.Player2D.FallUpdate | NYP_Framework_Week16_SOLUTION/App/Source/Scene2D/Player2D.cpp:980-1135 | the position becomes FallPos and the integrator FallMotion; a refused walk clears the jump count |
| Player.Player2D.Land | NYP_Framework_Week16_SOLUTION/App/Source/Scene2D/Player2D.cpp:1029-1034 | a refused fall makes the player IDLE and clears the jump count |
| Player.Player2D.UpdateJumpFall | NYP_Framework_Week16_SOLUTION/App/Source/Scene2D/Player2D.cpp:838-1142 | a JUMP walks towards relative UP, a FALL walks along gravity, and IDLE changes nothing |
| Player.Player2D.JumpInput | NYP_Framework_Week16_SOLUTION/App/Source/Scene2D/Player2D.cpp:283-314 | following JumpDecision, the player is set to JUMP with 0.33 along relative UP, and the jump count becomes 1 or grows by 1 |
| Player.Player2D.ThrowBomb | NYP_Framework_Week16_SOLUTION/App/Source/Scene2D/Player2D.cpp:322-336 | a throw happens exactly when the key is pressed and a bomb is held; it uses one bomb and sets the initial velocity to (0, 0.1); the new bomb is initialised at the player's index under the unchanged gravity direction, the shared gravity magnitude becomes 7.5, and the bomb goes into the lowest empty entity slot; a bomb leaves the inventory for the table, and is lost when every slot is taken |
| Player.Player2D.RotateGravity | NYP_Framework_Week16_SOLUTION/App/Source/Scene2D/Player2D.cpp:243-279 | the shared gravity becomes a different direction, and the player falls with 0.1 along the new relative UP |
| Player.Player2D.InteractWithMap | NYP_Framework_Week16_SOLUTION/App/Source/Scene2D/Player2D.cpp:1147-1211 | a bomb or power-up is taken off the map and counted; acid costs health and can complete the level; the exit completes the level |
| Player.Player2D.UpdateHealthLives | NYP_Framework_Week16_SOLUTION/App/Source/Scene2D/Player2D.cpp:1216-1235 | health at or below 0 is refilled at the cost of a life; fewer than 0 lives loses the game |
| Player.Player2D.PlaceAtStart | NYP_Framework_Week16_SOLUTION/App/Source/Scene2D/Player2D.cpp:87-93 | the start search succeeds exactly when a cell holds 3; that cell is cleared and the player stands on it at rest |
| Player.Player2D.Reset | NYP_Framework_Week16_SOLUTION/App/Source/Scene2D/Player2D.cpp:83-111 | Reset succeeds exactly when a start cell exists, and then leaves the player there falling |
| Player.Player2D.Init | NYP_Framework_Week16_SOLUTION/App/Source/Scene2D/Player2D.cpp:116-194 | Init succeeds exactly when a start cell exists; it then re-initialises the integrator to FALL and sets lives to 3 and health to 1000 with a maximum of 1000, taking the third argument of Add as the count |
| Player.BombBottomRowIsPlayersOnGrid | NYP_Framework_Week16_SOLUTION/App/Source/Scene2D/Bomb2D.cpp:405-426 | the bomb's bottom-row test implies the player's, and the two agree on the grid |
| Player.BombMidAirIsStricter | NYP_Framework_Week16_SOLUTION/App/Source/Scene2D/Bomb2D.cpp:452-468 | a bomb in mid-air on the grid is in mid-air for the player's test too; the converse fails on interactable tiles |
| Bomb.BombWalkStep | NYP_Framework_Week16_SOLUTION/App/Source/Scene2D/Bomb2D.cpp:158-189 | each visited cell may first be cleared; a refused cell ends the walk and a passable one hands it on |
| Bomb.WalkClearsAtMostOne | NYP_Framework_Week16_SOLUTION/App/Source/Scene2D/Bomb2D.cpp:158-189 | a walk clears at most one visited destructible tile, and only a live bomb clears one; the bomb ends dead exactly when it was dead or cleared a tile |
| Bomb.WalkKeepsHole | NYP_Framework_Week16_SOLUTION/App/Source/Scene2D/Bomb2D.cpp:569-583 | a dead bomb clears nothing more |
| Bomb.DeadBombWalksLikeFirstBlocked | NYP_Framework_Week16_SOLUTION/App/Source/Scene2D/Bomb2D.cpp:158-189 | a dead bomb's walk is the plain first-refused-cell walk over the unchanged map |
| Bomb.BombStopsOnRefusedCell | NYP_Framework_Week16_SOLUTION/App/Source/Scene2D/Bomb2D.cpp:169-173 | the bomb stops on a cell that CheckPosition refuses on the map as the walk left it |
| Bomb.Bomb2D.constructor | NYP_Framework_Week16_SOLUTION/App/Source/Scene2D/Bomb2D.cpp:27-43 | a new bomb is alive and at index 0 |
| Bomb.Bomb2D.Init | NYP_Framework_Week16_SOLUTION/App/Source/Scene2D/Bomb2D.cpp:63-112 | the shared gravity becomes the given direction with magnitude 7.5; the bomb rests at (x, y) and falls from zero velocity |
| Bomb.Bomb2D.Constraint | NYP_Framework_Week16_SOLUTION/App/Source/Scene2D/Bomb2D.cpp:269-312 | the player's clamp, and the bomb dies exactly when it was at or past the edge |
| Bomb.Bomb2D.CheckPosition | NYP_Framework_Week16_SOLUTION/App/Source/Scene2D/Bomb2D.cpp:318-402 | the verdict is the player's Passable; the index, the dead flag and the map are kept |
| Bomb.Bomb2D.InteractWithMap | NYP_Framework_Week16_SOLUTION/App/Source/Scene2D/Bomb2D.cpp:569-583 | a live bomb on a destructible tile clears that tile and dies; anything else changes nothing |
| Bomb.Bomb2D.Update | NYP_Framework_Week16_SOLUTION/App/Source/Scene2D/Bomb2D.cpp:119-262 | only a falling bomb moves; it follows BombFall, clearing at most one tile, and a refused cell makes it IDLE |
| Bomb.Bomb2D.Drop | NYP_Framework_Week16_SOLUTION/App/Source/Scene2D/Bomb2D.cpp:132-189 | position, dead flag and map become those of BombFall over the map as it was |
| Bomb.Bomb2D.Displace | NYP_Framework_Week16_SOLUTION/App/Source/Scene2D/Bomb2D.cpp:147-153 | a walk's set-up moves the index, zeroes that microstep and clamps towards relative DOWN, killing the bomb at the edge |
| Bomb.Bomb2D.FallWalk | NYP_Framework_Week16_SOLUTION/App/Source/Scene2D/Bomb2D.cpp:158-189 | the loop's result, position, dead flag and map are BombWalk's over the map as it was, stopping on the refused cell itself |
| Bomb.Bomb2D.Visit | NYP_Framework_Week16_SOLUTION/App/Source/Scene2D/Bomb2D.cpp:166-173 | one cell of the walk: clear a destructible tile, then check passability on the updated map |
| Enemy.IdleTick | NYP_Framework_Week16_SOLUTION/App/Source/Scene2D/Enemy2D.cpp:189-197 | past 120 frames IDLE switches to BOMB_SEARCH with the counter at 1; otherwise it counts |
| Enemy.Interact | NYP_Framework_Week16_SOLUTION/App/Source/Scene2D/Enemy2D.cpp:1052-1073 | a capture, or a counter past 120, resets the enemy to IDLE with counter 0; otherwise the state is kept |
| Enemy.Catches | NYP_Framework_Week16_SOLUTION/App/Source/Scene2D/Enemy2D.cpp:1064-1073 | a chase catches the player at most once per interaction |
| Enemy.BombSearchHasNoExit | NYP_Framework_Week16_SOLUTION/App/Source/Scene2D/Enemy2D.cpp:198-249 | once in BOMB_SEARCH, no number of frames changes the state or the counter |
| Enemy.AttackIsNeverEntered | NYP_Framework_Week16_SOLUTION/App/Source/Scene2D/Enemy2D.cpp:182-347 | no state leads into ATTACK |
| Enemy.IdleLeadsToBombSearch | NYP_Framework_Week16_SOLUTION/App/Source/Scene2D/Enemy2D.cpp:189-197 | an idle enemy counts up for 122 - counter frames and then stays in BOMB_SEARCH |
| Enemy.InteractionsResetOrKeep | NYP_Framework_Week16_SOLUTION/App/Source/Scene2D/Enemy2D.cpp:1052-1073 | before the counter passes 120, interactions leave the state as it is or reset it to IDLE |
| Enemy.IdleInteractionsStayIdle | NYP_Framework_Week16_SOLUTION/App/Source/Scene2D/Enemy2D.cpp:1052-1073 | from IDLE with counter 0, interactions change nothing |
| Enemy.AttackEndsInTime | NYP_Framework_Week16_SOLUTION/App/Source/Scene2D/Enemy2D.cpp:250-309 | ATTACK lasts at most 62 - counter frames |
| Enemy.InteractionsConcat | NYP_Framework_Week16_SOLUTION/App/Source/Scene2D/Enemy2D.cpp:1163-1290 | the interactions of the two halves of a chase compose in order |
| Enemy.CatchesConcat | NYP_Framework_Week16_SOLUTION/App/Source/Scene2D/Enemy2D.cpp:1163-1290 | the captures of the two halves of a chase add up |
| Enemy.ClampDiffersOnlyAtLowEdge | NYP_Framework_Week16_SOLUTION/App/Source/Scene2D/Enemy2D.cpp:517-555 | the enemy clamps like the player except on index 0 of the low side, where it keeps a microstep the player's clamp zeroes |
| Enemy.ProbesMatchPlayersUnlessAligned | NYP_Framework_Week16_SOLUTION/App/Source/Scene2D/Enemy2D.cpp:561-672 | the enemy probes the player's cells except towards +x or +y from a tile it sits squarely in |
| Enemy.PastRightEdgeIsAccepted | NYP_Framework_Week16_SOLUTION/App/Source/Scene2D/Enemy2D.cpp:585-592 | past the right edge the enemy's check accepts where the player's refuses |
| Enemy.AdvanceIsPlayersStepExceptUp | NYP_Framework_Week16_SOLUTION/App/Source/Scene2D/Enemy2D.cpp:1171-1242 | except upwards, the enemy's microstep is the player's |
| Enemy.AdvanceMovesOneMicrostep | NYP_Framework_Week16_SOLUTION/App/Source/Scene2D/Enemy2D.cpp:1171-1271 | an allowed step moves exactly one microstep on every axis and keeps the count within a tile |
| Enemy.HalfStepMovesOneMicrostep | NYP_Framework_Week16_SOLUTION/App/Source/Scene2D/Enemy2D.cpp:1171-1198 | from a placed position, a half step stays placed and either moves one microstep or rests on the edge tile |
| Enemy.ChaseMovesOneMicrostepPerAxis | NYP_Framework_Week16_SOLUTION/App/Source/Scene2D/Enemy2D.cpp:1163-1290 | UpdatePosition moves at most one microstep per axis, towards the direction's signs, and stays on the grid |
| Enemy.CaptureWindowIsEquality | NYP_Framework_Week16_SOLUTION/App/Source/Scene2D/Enemy2D.cpp:1059-1063 | the ±0.5 window around the player's integer index admits exactly the equal index |
| Enemy.RunEnd | NYP_Framework_Week16_SOLUTION/App/Source/Scene2D/Enemy2D.cpp:266-288 | the run is the longest straight prefix of the path in the first step's direction |
| Enemy.RunIsStraight | NYP_Framework_Week16_SOLUTION/App/Source/Scene2D/Enemy2D.cpp:266-288 | the run ends a whole number of steps beyond its first cell |
| Enemy.AimAlong | NYP_Framework_Week16_SOLUTION/App/Source/Scene2D/Enemy2D.cpp:266-288 | the direction is the step to the first path cell and the destination the end of its straight run; an empty path keeps the aim |
| Enemy.SearchStopsAtFirstCell | NYP_Framework_Week16_SOLUTION/App/Source/Scene2D/Enemy2D.cpp:213-235 | BOMB_SEARCH's walk stays on the first path cell unless the path's step is twice the stale step from the destination |
| Enemy.Enemy2D.constructor | NYP_Framework_Week16_SOLUTION/App/Source/Scene2D/Enemy2D.cpp:36-59 | a new enemy is idle, inactive, alive and at rest |
| Enemy.Enemy2D.Init | NYP_Framework_Week16_SOLUTION/App/Source/Scene2D/Enemy2D.cpp:115-177 | Init succeeds exactly when a cell holds 4 and the type is the golem; the start cell is cleared and the enemy placed before the type check |
| Enemy.Enemy2D.Constraint | NYP_Framework_Week16_SOLUTION/App/Source/Scene2D/Enemy2D.cpp:517-555 | the position becomes EnemyClamp of the old one |
| Enemy.Enemy2D.CheckPosition | NYP_Framework_Week16_SOLUTION/App/Source/Scene2D/Enemy2D.cpp:561-672 | the verdict is EnemyPassable; at the far edge the moving axis's microstep is zeroed |
| Enemy.Enemy2D.Step | NYP_Framework_Week16_SOLUTION/App/Source/Scene2D/Enemy2D.cpp:1171-1271 | the position becomes Advance of the old one |
| Enemy.Enemy2D.InteractWithPlayer | NYP_Framework_Week16_SOLUTION/App/Source/Scene2D/Enemy2D.cpp:1048-1076 | the player is caught exactly at the enemy's index, losing 100 health; the state follows Interact |
| Enemy.Enemy2D.Chase | NYP_Framework_Week16_SOLUTION/App/Source/Scene2D/Enemy2D.cpp:1171-1198 | one half of UpdatePosition: HalfStep, then a capture test at the new index |
| Enemy.Enemy2D.UpdatePosition | NYP_Framework_Week16_SOLUTION/App/Source/Scene2D/Enemy2D.cpp:1163-1290 | the position becomes Chased, the state follows the chase's interactions, and health drops by 100 per capture |
| Enemy.Enemy2D.FollowPath | NYP_Framework_Week16_SOLUTION/App/Source/Scene2D/Enemy2D.cpp:266-288 | the aim becomes AimAlong of the path |
| Enemy.Enemy2D.SearchPath | NYP_Framework_Week16_SOLUTION/App/Source/Scene2D/Enemy2D.cpp:213-235 | an empty path changes nothing; otherwise the index becomes SearchEnd and the direction is measured from the destination |
| Enemy.Enemy2D.TakeBombDamage | NYP_Framework_Week16_SOLUTION/App/Source/Scene2D/Enemy2D.cpp:315-331 | EnemyHealth drops by 50; at or below 0 the enemy dies and the level is completed |
| Enemy.Enemy2D.CollidedWith | NYP_Framework_Week16_SOLUTION/App/Source/Scene2D/Enemy2D.cpp:62-83 | only an entity named "Bomb" deals damage and is itself killed; anything else changes nothing |
| Enemy.TableCollisionIsCollidedWith | NYP_Framework_Week16_SOLUTION/App/Source/Scene2D/Enemy2D.cpp:62-83 | the entity table's CollidedWith on the enemy changes EnemyHealth, the enemy's dead flag and the level flag exactly as Enemy2D.CollidedWith does, and kills the other entity exactly when it is a bomb |
| Enemy.Enemy2D.AttackTick | NYP_Framework_Week16_SOLUTION/App/Source/Scene2D/Enemy2D.cpp:250-309 | in range, the enemy aims along the path and chases; then ATTACK's counter rule applies |
| Enemy.Enemy2D.Update | NYP_Framework_Week16_SOLUTION/App/Source/Scene2D/Enemy2D.cpp:182-347 | an inactive enemy does nothing; an active one takes one FSM frame, then the G key deals a bomb's damage |
| Entities.FirstFree | NYP_Framework_Week16_SOLUTION/App/Source/Scene2D/EntityManager.cpp:125-133 | the result is the lowest empty slot, or the slot count when every slot is taken |
| Entities.FirstFreeIsLowest | NYP_Framework_Week16_SOLUTION/App/Source/Scene2D/EntityManager.cpp:125-133 | the first empty slot found scanning upwards is FirstFree's |
| Entities.FloatTestIsQuarterTest | NYP_Framework_Week16_SOLUTION/App/Source/Scene2D/EntityManager.cpp:106-114 | the float overlap test equals the integer test in quarter tiles |
| Entities.OverlapIsNotSymmetric | NYP_Framework_Week16_SOLUTION/App/Source/Scene2D/EntityManager.cpp:106-114 | an entity exactly one tile to the right overlaps the other entity, but not the other way round |
| Entities.OverlapAsymmetryIsOnTheBoundary | NYP_Framework_Week16_SOLUTION/App/Source/Scene2D/EntityManager.cpp:106-114 | the overlap test is symmetric except at a distance of exactly one tile |
| Entities.CollidedWith | NYP_Framework_Week16_SOLUTION/App/Source/Scene2D/Enemy2D.cpp:62-83 | each callback is recorded and keeps every slot: an occupied slot stays occupied and a dead entity stays dead |
| Entities.Updated | NYP_Framework_Week16_SOLUTION/App/Source/Scene2D/EntityManager.cpp:99 | an entity's own Update changes only its own slot, which stays occupied, and the shared counters, and makes no CollidedWith call |
| Entities.Turn | NYP_Framework_Week16_SOLUTION/App/Source/Scene2D/EntityManager.cpp:91-120 | one slot's turn keeps the slot count and only adds CollidedWith calls |
| Entities.Sweep | NYP_Framework_Week16_SOLUTION/App/Source/Scene2D/EntityManager.cpp:85-123 | an Update keeps the slot count and only adds CollidedWith calls; its effect is the slots' turns in slot order |
| Entities.TurnKeeps | NYP_Framework_Week16_SOLUTION/App/Source/Scene2D/EntityManager.cpp:91-120 | a slot's turn keeps every other slot (occupied stays occupied, unmoved, and dead stays dead) and never fills an empty slot |
| Entities.Touch | NYP_Framework_Week16_SOLUTION/App/Source/Scene2D/EntityManager.cpp:116-119 | an overlap calls the other entity's CollidedWith first and then the updated entity's |
| Entities.ScanKeeps | NYP_Framework_Week16_SOLUTION/App/Source/Scene2D/EntityManager.cpp:102-120 | the collision loop never empties or moves a slot, and never revives an entity |
| Entities.SweepKeepsEmptySlotsEmpty | NYP_Framework_Week16_SOLUTION/App/Source/Scene2D/EntityManager.cpp:85-123 | an Update never fills an empty slot |
| Entities.SweepReapsTheDead | NYP_Framework_Week16_SOLUTION/App/Source/Scene2D/EntityManager.cpp:92-97 | an entity that is dead when its slot's turn comes is deleted |
| Entities.ScanMakesNoSelfCalls | NYP_Framework_Week16_SOLUTION/App/Source/Scene2D/EntityManager.cpp:102-105 | the collision loop never tests an entity against its own slot |
| Entities.SweepMakesNoSelfCalls | NYP_Framework_Week16_SOLUTION/App/Source/Scene2D/EntityManager.cpp:85-123 | no entity is ever tested against itself in an Update |
| Entities.ScanTestsEveryOccupiedSlot | NYP_Framework_Week16_SOLUTION/App/Source/Scene2D/EntityManager.cpp:102-120 | every other occupied slot that overlaps, dead or alive, receives the updated entity's CollidedWith |
| Entities.PairCollidesTwice | NYP_Framework_Week16_SOLUTION/App/Source/Scene2D/EntityManager.cpp:85-123 | two live entities that overlap both ways are reported twice in one Update, each time with the other entity's callback first |
| Entities.EntityManager2D.constructor | NYP_Framework_Week16_SOLUTION/App/Source/Scene2D/EntityManager.cpp:30-37 | a new manager has no slots |
| Entities.EntityManager2D.Init | NYP_Framework_Week16_SOLUTION/App/Source/Scene2D/EntityManager.cpp:60-83 | Init appends exactly 100 empty slots |
| Entities.EntityManager2D.AddEntity | NYP_Framework_Week16_SOLUTION/App/Source/Scene2D/EntityManager.cpp:125-133 | the entity goes into the lowest empty slot; with none empty the table is unchanged |
| Entities.StoreCounts | NYP_Framework_Week16_SOLUTION/App/Source/Scene2D/EntityManager.cpp:125-133 | storing an entity in an empty slot adds one entity of its name and leaves the count of every other name unchanged |
| Entities.EntityManager2D.Update | NYP_Framework_Week16_SOLUTION/App/Source/Scene2D/EntityManager.cpp:85-123 | slots, counters and the CollidedWith calls made are those of Sweep over the table as it was, with each entity's own Update acting on the entity and on EnemyHealth and the level flag before its collision loop |
| Entities.EntityManager2D.TestAll | NYP_Framework_Week16_SOLUTION/App/Source/Scene2D/EntityManager.cpp:102-120 | the collision loop of one entity follows Scan |
| Entities.EntityManager2D.TestPair | NYP_Framework_Week16_SOLUTION/App/Source/Scene2D/EntityManager.cpp:104-118 | one pass of the collision loop advances Scan by one slot: an overlapping, occupied other slot gets both CollidedWith calls, its own first |
| Entities.EntityManager2D.Collide | NYP_Framework_Week16_SOLUTION/App/Source/Scene2D/EntityManager.cpp:116-119 | one callback follows CollidedWith |
| Entities.EntityManager2D.Exit | NYP_Framework_Week16_SOLUTION/App/Source/Scene2D/EntityManager.cpp:148-158 | every slot is emptied and the slot count is kept |
| Spawner.RowsExactly | NYP_Framework_Week16_SOLUTION/App/Source/Scene2D/ItemSpawner.cpp:103-112 | the inner loop lists exactly the spaces beside the qualifying cells of its column |
| Spawner.ColumnsExactly | NYP_Framework_Week16_SOLUTION/App/Source/Scene2D/ItemSpawner.cpp:101-113 | the outer loop lists exactly the spaces beside the qualifying cells of its columns |
| Spawner.SpacesExactly | NYP_Framework_Week16_SOLUTION/App/Source/Scene2D/ItemSpawner.cpp:98-113 | a cell is listed exactly when the tile behind it is an interior platform tile and the cell itself is empty |
| Spawner.SpacesAreEmpty | NYP_Framework_Week16_SOLUTION/App/Source/Scene2D/ItemSpawner.cpp:107-110 | every listed space is an empty tile, so a spawn never overwrites anything |
| Spawner.RowsInOrder | NYP_Framework_Week16_SOLUTION/App/Source/Scene2D/ItemSpawner.cpp:103-112 | the inner loop lists its entries in increasing row order |
| Spawner.ColumnsInOrder | NYP_Framework_Week16_SOLUTION/App/Source/Scene2D/ItemSpawner.cpp:101-113 | the search lists spaces in column-major order of their platform tiles |
| Spawner.SpacesAreDistinct | NYP_Framework_Week16_SOLUTION/App/Source/Scene2D/ItemSpawner.cpp:98-113 | no space is listed twice, so every space is equally likely to be drawn |
| Spawner.SpawnFillsOneSpace | NYP_Framework_Week16_SOLUTION/App/Source/Scene2D/ItemSpawner.cpp:114-115 | a successful spawn writes the item into one listed space and changes no other tile |
| Spawner.ItemSpawner2D.FindSpaces | NYP_Framework_Week16_SOLUTION/App/Source/Scene2D/ItemSpawner.cpp:100-113 | the nested loops return Spaces of the map, in the order they find them |
| Spawner.ItemSpawner2D.ScanColumn | NYP_Framework_Week16_SOLUTION/App/Source/Scene2D/ItemSpawner.cpp:103-112 | the inner loop appends the spaces of one column, in row order, after those already found |
| Spawner.ItemSpawner2D.IsSpace | NYP_Framework_Week16_SOLUTION/App/Source/Scene2D/ItemSpawner.cpp:105-108 | a cell is reported exactly when its tile lies in [idStart, idEnd] and its neighbour in `dir` holds 0 |
| Spawner.ItemSpawner2D.SpawnObjectOnRandomPlatformIn | NYP_Framework_Week16_SOLUTION/App/Source/Scene2D/ItemSpawner.cpp:98-122 | the spawn succeeds exactly when the draw indexes the list, and the map then holds Spawned |
| Spawner.ItemSpawner2D.SpawnObjectOnRandomPlatform | NYP_Framework_Week16_SOLUTION/App/Source/Scene2D/ItemSpawner.cpp:93-96 | the two-argument spawn searches the platform tiles 100 to 199 |
| Spawner.ItemSpawner2D.Init | NYP_Framework_Week16_SOLUTION/App/Source/Scene2D/ItemSpawner.cpp:60-83 | a small bomb goes above a platform against gravity; on a coin of 0 a double-jump power-up follows |

## Left out

- Rendering, textures, shaders, animation, sound, the keyboard and the console output are not modelled. Keys appear as boolean parameters, for example `pressed` and `keyG`.
- Timers and cooldowns are left out: jumpCD, bombThrowCD, nextSwitchCD, autoSpawnBombCD and jumpBoostCD. Whether a timer has expired is a parameter, for example `pressed` or the call to RotateGravity.
- Random draws are parameters: the rotation pick, the spawn picks and the coin.
- Player2D.Update's double-jump drain (jumpBoostCD) is not modelled, because it is driven by elapsed time.
- Player2D.Update's automatic bomb spawn, the R-key spawn and the spawns during a gravity rotation are not modelled. They are calls to the modelled SpawnObjectOnRandomPlatform.
- ClearInteractables and SetCurrentLevel are not modelled, because CMap2D is not part of this model. This also covers the rotation's map reload.
- CMap2D is not part of this model except for GetMapInfo, SetMapInfo and FindValue. A read outside the grid yields a fixed value. Which cell FindValue returns when several match is left unspecified.
- The pathfinder (CMap2D::PathFind) is a parameter: the path it returns. CalculateDistance is a parameter too: `inRange`, whether the player is nearer than 25 tiles.
- Floating-point SUVAT is modelled on reals. The conversion of the float displacement into a whole number of tiles is a parameter, `disp`. This covers the `!= 0` and `> 0` rounding tests of the jump and fall branches.
- Player.Player2D.UpdateJumpFall: the landing sound and `fallenMag` are left out.
- Inventory items are plain integers. CInventoryItem's clamping of a count to its range is not modelled.
- Player.Player2D.Init: CInventoryManager is not part of this model, so the order of Add's count arguments is not checked. The model takes the third argument as the count: 3 lives, and 1000 health with a maximum of 1000. If the fourth argument is the count, the player starts with 0 lives, and the first time health reaches 0 the game is lost.
- The pathfinder's input is not checked. In BOMB_SEARCH, Enemy2D.cpp:202-206 passes FindValue's row and column as the target's (x, y), so the target is the bomb's cell with its coordinates swapped. The path is a parameter of Enemy.Enemy2D.SearchPath, so the model takes whatever path that target yields and does not say it leads to the bomb.
- Failed texture loads are not modelled, so Init cannot fail for a missing file.
- Enemy2D.UpdateJumpFall is not modelled, because its body is commented out.
- Enemy2D.UpdateHealthLives, Bomb2D.UpdateHealthLives and Bomb2D.CollidedWith are not modelled, because their bodies are empty.
- Enemy2D.InteractWithMap is not modelled, because nothing calls it.
- Enemy2D.UpdateDirection and FlipHorizontalDirection are not modelled, because every call to them from Update is commented out.
- The enemy's direction vector has no initial value in the source. Here it starts at (0, 0).
- Entities are values: a name, a position and the dead flag. Heap ownership and `delete` are modelled by emptying a slot. Player.Player2D.ThrowBomb stores the new bomb's value in the table, so the table's copy and the Bomb2D object do not alias.
- Each entity's own Update is a parameter of EntityManager2D.Update. It acts on the entity and on the two counters the collision callbacks read, EnemyHealth and the level flag, so the enemy's G-key damage inside the loop is covered. What an entity's Update does to state outside the table is not composed into the manager's Update: the map cells a bomb clears (Bomb.Bomb2D.Update) and the player health an enemy takes (Enemy.Enemy2D.Update). No collision callback reads that state.
- Spawner.ItemSpawner2D.SpawnObjectOnRandomPlatformIn: with no space found, the source's `at()` throws. Here the spawn returns false and writes nothing. Spawner.ItemSpawner2D.Init passes that failure on instead of returning true.
- Concurrency does not arise, because the game is single-threaded.
