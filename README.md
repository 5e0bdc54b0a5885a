# Rock Avoidance Game: a verified model of the game logic

The game is a Swing panel. A ship at the bottom of an 800×600 window moves left and right to dodge rocks that fall from the top. All of the game's logic lives in five fields of the panel class:

- the ship's position `playerX`, `playerY`;
- the list of falling rocks, `obstacles`;
- the shared falling speed, `obstacleSpeed`;
- the `gameOver` flag.

Three handlers change those fields:

- the timer callback runs one simulation tick;
- the key handler moves the ship and changes the speed;
- the restart button resets everything.

This project models those fields and handlers in Dafny and proves what they guarantee.

- `geometry.dfy` (module `Geometry`) holds integer rectangles and the strict overlap test the game uses for collisions (`java.awt.Rectangle.intersects`). Boxes that only share an edge do not overlap.
- `world.dfy` (module `RockWorld`) holds the constants, the game state as a value (`World`), and each handler as a function: `TickSpec`, `KeyPressSpec`, `Initial`. The obstacle loop of a tick is the recursive function `Sweep`. `Fallen` is an independent "move everything, then filter" reference for `Sweep`. The lemmas say what a tick and a key press do and which invariant they keep.
- `events.dfy` (module `GameRuns`) covers any interleaving of ticks, key presses and restarts. Each event is applied atomically, as on the UI thread. Its lemmas prove the invariant over every run, that a finished game is frozen under ticks, and that restart forgets the past.
- `game.dfy` (module `RockAvoidance`) holds the class `Game`. It has the same fields, updated in place. `Tick` walks the rock list with an index and a `while` loop, as the source does: it removes a rock in place and steps the index back, and it breaks on the first hit. Each method is proved to produce exactly the state that the matching `RockWorld` function describes. It also proves that the methods keep the object invariant `Valid()`.
- `scenarios.dfy` (module `Scenarios`) works through concrete situations.

The random spawn decision and the random spawn x are parameters of a tick: `spawn` and `spawnX`, with `0 <= spawnX < 750` (`nextInt(750)` at line 86).

Three details of the code are kept as written:

- A rock is spawned on every tick that began in play, including the tick that has just ended the game: lines 85-88 do not re-test the flag. See `TickFirstHit` and `Scenarios.HitTickStillSpawns`.
- Overlap is strict. A rock spawned at x = 390 with speed 5 only touches the ship's top edge at y = 470, and first overlaps the ship at y = 475, on tick 95. See `Scenarios.TouchingIsNotHitting`.
- A rock is still tested against the ship after it has been removed from the list (line 77 runs after line 72). `RemovedRockMisses` shows that such a rock can never hit the ship at its fixed height.

## Model

| member | source | states |
|---|---|---|
| Geometry.Intersects | RockAvoidanceGame.java:77 | the collision test `Rectangle.intersects`: false whenever either box has no width or height, otherwise strict overlap on both axes |
| Geometry.IntersectsMeaning | RockAvoidanceGame.java:77 | an intersecting pair consists of two non-empty boxes; boxes that are apart or only share an edge on either axis do not intersect; the test is symmetric |
| Geometry.IntersectsIffSharedPixel | RockAvoidanceGame.java:77 | the overlap test used for collisions holds exactly when some pixel lies inside both boxes |
| RockWorld.Sweep | RockAvoidanceGame.java:68-82 | the obstacle loop never leaves more rocks than it started with |
| RockWorld.Fallen | RockAvoidanceGame.java:68-74 | moving every rock down and dropping those below the window leaves at most as many rocks, none of them below the window |
| RockWorld.TickSpec | RockAvoidanceGame.java:65-92 | in game over a tick changes nothing; a tick never moves the ship or changes the speed; it adds at most the one spawned rock |
| RockWorld.KeyPressSpec | RockAvoidanceGame.java:129-148 | Left moves the ship 10 to the left exactly when it is not at x <= 0, and otherwise changes nothing; Right moves it 10 to the right exactly when it is left of 740, and otherwise changes nothing; no other key moves the ship, and the moves keep it on the 10-pixel grid inside the window; Shift+"=" adds 1 to the speed; "-" sets it to max(1, speed-1); the speed stays at least 1; any other key, or "=" without Shift, changes nothing; rocks and the flag are never touched |
| RockWorld.Initial | RockAvoidanceGame.java:157-162 | the start/restart state has no rocks, is playing, and satisfies the invariant (ship at 370 on the grid, y = 520, speed 5) |
| RockWorld.SweepHitIff | RockAvoidanceGame.java:76-81 | the loop reports a collision if and only if some rock, after its fall, strictly overlaps the ship's box |
| RockWorld.SweepNoHit | RockAvoidanceGame.java:68-74 | without a collision the loop's result is every rock moved down once by the speed, with x unchanged, the off-screen ones dropped, and in the original order |
| RockWorld.SweepFirstHit | RockAvoidanceGame.java:76-81 | with the first collision at rock k, rocks 0..k have fallen and been filtered, and every rock after k keeps its old position |
| RockWorld.FallenConcat | RockAvoidanceGame.java:68-74 | moving and filtering preserves relative order: it distributes over concatenation |
| RockWorld.FallenMembers | RockAvoidanceGame.java:69-74 | a rock is kept if and only if it is an old rock moved down by exactly the speed, x unchanged, and not below the window |
| RockWorld.SweepKeepsRange | RockAvoidanceGame.java:70-74 | with speed at least 1, rocks that start on screen (0 <= y <= 600, 0 <= x < 750) are still on screen after the loop, whether they fell or were skipped after a hit |
| RockWorld.RemovedRockMisses | RockAvoidanceGame.java:72-77 | a rock tested after its removal (y > 600) cannot overlap a ship at y = 520 |
| RockWorld.TickGameOverIff | RockAvoidanceGame.java:77-78 | a tick ends in game over if and only if it began in game over or some fallen rock overlaps the ship |
| RockWorld.TickNoHit | RockAvoidanceGame.java:68-88 | a collision-free tick in play leaves the fallen-and-filtered rocks followed by the spawned rock (if any), and changes nothing else |
| RockWorld.TickFirstHit | RockAvoidanceGame.java:77-88 | a tick whose first collision is rock k sets game over, leaves the rocks after k unmoved, and still appends the spawned rock |
| RockWorld.TickPreservesInv | RockAvoidanceGame.java:65-92 | a tick keeps the invariant whenever the spawn x is in [0, 750) |
| RockWorld.LeftRightUndo | RockAvoidanceGame.java:130-139 | away from both edges, Left then Right (and Right then Left) returns to the same state |
| RockWorld.KeyPressPreservesInv | RockAvoidanceGame.java:130-147 | a key press keeps the invariant |
| GameRuns.RunPreservesInv | RockAvoidanceGame.java:65-165 | over any sequence of ticks, key presses and restarts, the ship stays on the grid in [0, 740], the speed stays at least 1, and every stored rock has 0 <= y <= 600 |
| GameRuns.RunFromStart | RockAvoidanceGame.java:17-25 | every run from the initial field values keeps the invariant |
| GameRuns.KeysOnly | RockAvoidanceGame.java:129-148 | any sequence of key presses keeps the ship on the grid and the speed at least 1, and leaves the rocks, the flag and the ship's y alone |
| GameRuns.FrozenUnderTicks | RockAvoidanceGame.java:66 | once the game is over, any number of ticks leaves the whole state unchanged |
| GameRuns.RestartForgets | RockAvoidanceGame.java:157-162 | after a restart, what follows does not depend on the state before it |
| GameRuns.RestartTwice | RockAvoidanceGame.java:157-162 | two restarts in a row give the same state as one, the initial state |
| RockAvoidance.Game.constructor | RockAvoidanceGame.java:17-25 | a new game object holds the initial state and satisfies the object invariant |
| RockAvoidance.Game.Tick | RockAvoidanceGame.java:65-92 | the in-place index loop (remove and step back, break on the first hit) followed by the optional spawn yields exactly the state TickSpec describes, and keeps the object invariant |
| RockAvoidance.Game.KeyPress | RockAvoidanceGame.java:129-148 | the field updates yield exactly the state KeyPressSpec describes, and keep the object invariant |
| RockAvoidance.Game.Restart | RockAvoidanceGame.java:157-165 | from any state, the fields become the initial state and the restart button is hidden |
| Scenarios.TouchingIsNotHitting | RockAvoidanceGame.java:77 | a rock whose bottom edge touches the ship's top edge does not collide; 5 pixels further it does |
| Scenarios.BottomEdge | RockAvoidanceGame.java:71-74 | a rock reaching y = 605 is removed; one reaching exactly y = 600 stays |
| Scenarios.HitTickStillSpawns | RockAvoidanceGame.java:77-88 | on the tick that ends the game, the later rock keeps its position and the new rock is still appended |
| Scenarios.SlowDownToFloor | RockAvoidanceGame.java:145-147 | from speed 5, four presses of "-" give 1, and a fifth keeps 1 |
| Scenarios.EqualsNeedsShift | RockAvoidanceGame.java:140-144 | "=" without Shift changes nothing; with Shift it raises the speed to 6 |
| Scenarios.ArrowsMoveTheShip | RockAvoidanceGame.java:130-139 | from the start position Left gives x = 360 and Right gives x = 380 |
| Scenarios.ArrowsStopAtEdges | RockAvoidanceGame.java:130-139 | Left at x = 0 and Right at x = 740 do not move the ship |

## Left out

- Swing and AWT plumbing is not modelled: the panel setup, focus handling, the timer (line 45), the frame and `main`. They only wire events to the handlers. Each handler is modelled as one atomic step, because they all run on the single event-dispatch thread.
- `paintComponent` (lines 95-126) is not modelled: it only draws the state.
- Image loading (lines 42-43) is left out: it is file I/O.
- `repaint()` is left out. The restart button's `setVisible` calls are kept only as the ghost field `restartShown`, which the object invariant ties to `gameOver`.
- Randomness is left out: `Math.random() < 0.02` and `new Random().nextInt(750)` are replaced by the tick parameters `spawn` and `spawnX`. `Game.Tick` requires `0 <= spawnX < 750`, the range `nextInt` guarantees.
- `keyReleased` and `keyTyped` are not modelled: both are empty.
- Key events are reduced to the four key codes the handler tests (`Key.Left`, `Right`, `Equals`, `Minus`) plus `Other` for every other code.
- The rock list holds `Rectangle` references in the source, mutated in place. No other reference to them exists, so the model stores plain `(x, y)` values. Width and height are always 50.
- RockWorld.KeyPressSpec, RockWorld.TickSpec: integers are unbounded. Java wraps `obstacleSpeed += 1` and `obstacle.y += obstacleSpeed` at 2^31 - 1, which would take more than two billion Shift+"=" presses to reach. `Geometry.Intersects` likewise omits `Rectangle.intersects`' handling of corner overflow, which cannot occur with these coordinates.
