# Box game round simulation in Dafny

A model of the round logic of the box reflex game. The player drags a red
square around a bordered square field. Four blue enemy squares move in
straight lines and bounce off the border. The round ends when an enemy
touches the player or when the player lets go. The longest time survived is
kept as the best time and saved to a key-value store.

The model has four modules:

- `Geometry` (`geometry.dfy`): points, boxes, Kotlin's `coerceIn` (as
  `Clamp`) and the strict box-overlap test.
- `Enemies` (`enemy.dfy`): the enemy's bounce step on values (`BounceAxis`
  for one axis, `Advance` for both, `AdvanceN` for `n` ticks), and a class
  `Enemy` whose `UpdatePosition` changes its fields in place.
- `Scoring` (`scoring.dfy`): the best-time rule and its effect over many
  rounds.
- `Game` (`game.dfy`): the fixed sizes, the spawn rule, the collision
  predicate, and a class `Round` that holds the state of the game screen.
  The state is the flags, the timestamps, the player position, the best
  time, the stored best time and the enemy objects. Its methods are the
  screen's handlers: drag start, drag, drag end, one tick, the tick loop,
  the game-over best-time update and the reset.

Positions are `real`, so the arithmetic is exact. Times are `int`
milliseconds. The sizes are those of the source: player 40, enemy 60,
border 40, spawn margin 50, tick offset (1, 1). The field is square, with
its width passed to the `Round` constructor.

`Round.Valid()` is the invariant every method keeps:

- the player is inside the drag range;
- there are at most 4 enemies, and they are distinct objects;
- every enemy is inside the arena;
- every enemy's speed on each axis is in [10, 15).

## Model

| member | source | states |
|---|---|---|
| `Geometry.Clamp` | app/src/main/java/com/boxgame/MainActivity.kt:145-152 | `coerceIn` on a non-empty range: the result is in the range, equals the value when the value is already inside, and is the nearer bound otherwise |
| `Geometry.ClampIsNearest` | app/src/main/java/com/boxgame/MainActivity.kt:145-152 | the clamped value is the point of the range nearest to the input |
| `Geometry.Overlaps` | app/src/main/java/com/boxgame/MainActivity.kt:217-220 | the collision test as written: four strict inequalities between the two boxes' edges. What it means is stated by the next three lemmas |
| `Geometry.OverlapsIffCommonInteriorPoint` | app/src/main/java/com/boxgame/MainActivity.kt:217-220 | for boxes of positive size, the strict overlap test holds exactly when some point lies strictly inside both boxes |
| `Geometry.OverlapsIsSymmetric` | app/src/main/java/com/boxgame/MainActivity.kt:217-220 | the overlap test does not depend on the order of its two boxes |
| `Geometry.TouchingBoxesDoNotOverlap` | app/src/main/java/com/boxgame/MainActivity.kt:217-220 | boxes that only share an edge do not collide |
| `Enemies.BounceAxis` | app/src/main/java/com/boxgame/MainActivity.kt:268-287 | one axis of the bounce. When the square fits, the new position is inside [border, extent − border − size] and equals the candidate clamped to that range. The velocity is negated when the candidate leaves the interior. Otherwise the square moves to position + velocity with its velocity unchanged. The speed never changes |
| `Enemies.Advance` | app/src/main/java/com/boxgame/MainActivity.kt:266-290 | both axes: each is the one-axis bounce of its own coordinate and velocity, so the axes are independent. When the square fits on both axes it ends inside the arena. Both speeds are kept |
| `Enemies.AdvanceN` | app/src/main/java/com/boxgame/MainActivity.kt:200-205 | `n` ticks of the bounce step. After at least one tick, an enemy that fits ends inside the arena wherever it started |
| `Enemies.AdvanceNKeepsSpeed` | app/src/main/java/com/boxgame/MainActivity.kt:271-287 | after any number of ticks, the enemy's speed on each axis is still its starting speed |
| `Enemies.CornerBounce` | app/src/main/java/com/boxgame/MainActivity.kt:271-287 | a corner hit flips both components: (45, 45) with velocity (−10, −10) at border 40 becomes (40, 40) with velocity (10, 10) |
| `Enemies.NoBounceWhenCandidateInside` | app/src/main/java/com/boxgame/MainActivity.kt:268-286 | (35, 35) with velocity (10, 10) moves to (45, 45) and keeps its velocity, because the candidate is inside the interior |
| `Enemies.Enemy.constructor` | app/src/main/java/com/boxgame/MainActivity.kt:266 | the enemy starts with the given position and velocity |
| `Enemies.Enemy.UpdatePosition` | app/src/main/java/com/boxgame/MainActivity.kt:267-289 | the new position and velocity are `Advance` of the old ones. When the square fits, the enemy ends inside the arena |
| `Scoring.NewBest` | app/src/main/java/com/boxgame/MainActivity.kt:233-235 | the new best time is the larger of the old best and the survived time. It changes exactly when the survived time is strictly greater |
| `Scoring.BestAfterRoundsIsMax` | app/src/main/java/com/boxgame/MainActivity.kt:232-235 | over any series of rounds, the best time is at least its starting value and at least every survived time, and it equals one of them, so it is their maximum |
| `Game.Centre` | app/src/main/java/com/boxgame/MainActivity.kt:88 | the player's start position `((w − 40)/2, (h − 40)/2)` lies inside the drag range |
| `Game.SpawnCoordinate` | app/src/main/java/com/boxgame/MainActivity.kt:95-96 | a draw from [0, 1) maps into [border, extent − border − enemySize) |
| `Game.SpawnPosition` | app/src/main/java/com/boxgame/MainActivity.kt:94-97 | a spawn candidate lies in the half-open spawn range on both axes |
| `Game.AcceptedSpawns` | app/src/main/java/com/boxgame/MainActivity.kt:93-101 | every accepted candidate is outside the player box widened by 50 on every side, and inside the spawn range |
| `Game.AcceptedSpawnsPrefix` | app/src/main/java/com/boxgame/MainActivity.kt:93-101 | drawing more samples only appends accepted spawns, so the order of acceptance is the order of drawing |
| `Game.DrawSpawn` | app/src/main/java/com/boxgame/MainActivity.kt:93-101 | the `do … while` loop draws until it finds a candidate outside the exclusion zone, which becomes the next accepted spawn, or until the draws run out |
| `Game.InExclusionZone` | app/src/main/java/com/boxgame/MainActivity.kt:99-100 | the redraw condition of the `do … while`, written as the source writes it |
| `Game.InExclusionZoneIsZoneOverlap` | app/src/main/java/com/boxgame/MainActivity.kt:99-100 | the redraw condition holds exactly when the candidate enemy box strictly overlaps the player box widened by 50 on every side |
| `Game.NarrowFieldRejectsEveryDraw` | app/src/main/java/com/boxgame/MainActivity.kt:93-101 | on a square field wider than 140 but narrower than 340, every candidate position lies in the exclusion zone of the centred player |
| `Game.NarrowFieldAcceptsNothing` | app/src/main/java/com/boxgame/MainActivity.kt:91-101 | on such a field no draw is ever accepted, however many are made, so the source's first `do … while` never ends |
| `Game.WideFieldAcceptsCornerDraw` | app/src/main/java/com/boxgame/MainActivity.kt:93-101 | from width 340 on, the draw (0, 0), which places the enemy at (40, 40), is outside the exclusion zone and is accepted |
| `Game.AdvanceKeepsEnemyValid` | app/src/main/java/com/boxgame/MainActivity.kt:203-205 | a tick's bounce step keeps an enemy inside the arena with its speeds still in [10, 15) |
| `Game.SpawnedEnemyValid` | app/src/main/java/com/boxgame/MainActivity.kt:103-110 | an enemy with a candidate spawn position and speeds drawn from [10, 15) satisfies the round's invariant |
| `Game.OutsideZoneMissesPlayer` | app/src/main/java/com/boxgame/MainActivity.kt:99-100 | an enemy spawned outside the exclusion zone does not overlap the player box |
| `Game.PositionsAfter` | app/src/main/java/com/boxgame/MainActivity.kt:200-205 | the enemy positions after `n` ticks: one per enemy, each that enemy's `AdvanceN` position |
| `Game.Collides` | app/src/main/java/com/boxgame/MainActivity.kt:216-224 | the tick's hit test: some enemy box strictly overlaps the player box |
| `Game.CollidesIgnoresOrder` | app/src/main/java/com/boxgame/MainActivity.kt:216-224 | whether a tick finds a hit does not depend on the order in which the enemies are scanned |
| `Game.Round.constructor` | app/src/main/java/com/boxgame/MainActivity.kt:48-63 | the field is square and the player is centred. Both flags are clear and all times are 0. The best time is the stored value. There are no enemies yet |
| `Game.Round.StartClock` | app/src/main/java/com/boxgame/MainActivity.kt:66-69 | records the start time and sets `gameStarted`, and nothing else |
| `Game.Round.EndClock` | app/src/main/java/com/boxgame/MainActivity.kt:72-75 | records the end time and sets `gameOver`, and nothing else |
| `Game.Round.CalcTime` | app/src/main/java/com/boxgame/MainActivity.kt:78-80 | the survived time in seconds, which is the last tick's elapsed milliseconds divided by 1000 |
| `Game.Round.Drag` | app/src/main/java/com/boxgame/MainActivity.kt:142-155 | once the game is over the player does not move. Otherwise each coordinate becomes old + delta clamped to [40, extent − 40 − 40]. The player always stays inside that range |
| `Game.Round.PlayerHit` | app/src/main/java/com/boxgame/MainActivity.kt:216-224 | the scan finds a hit exactly when some enemy box overlaps the player box |
| `Game.Round.MoveEnemies` | app/src/main/java/com/boxgame/MainActivity.kt:203-205 | every enemy takes exactly one bounce step, and the round invariant is kept |
| `Game.Round.Tick` | app/src/main/java/com/boxgame/MainActivity.kt:200-224 | when started and not over: `currentGameTime = now − startTime`, every enemy advances one step, and `gameOver` becomes whether some enemy overlaps the player. Otherwise nothing changes. The player does not move. A tick never clears `gameOver` |
| `Game.Round.RunClock` | app/src/main/java/com/boxgame/MainActivity.kt:199-228 | ticks run only while the round is started and not over, and each enemy ends `AdvanceN` of its start state. No tick before the last found a collision, so the loop stops at the first colliding tick and the elapsed time is frozen there. Ticking stops early only when the round has ended. After the last tick the elapsed time is that tick's reading − `startTime`, and `gameOver` is whether the enemies now touch the player |
| `Game.Round.RecordSurvival` | app/src/main/java/com/boxgame/MainActivity.kt:230-237 | on game over, the best time becomes `NewBest(old best, survived)`. The store is written exactly when the survived time is strictly greater |
| `Game.Round.ResetGame` | app/src/main/java/com/boxgame/MainActivity.kt:83-114 | clears both flags and the elapsed time and centres the player. It places fresh enemies at the first accepted spawns with their drawn velocities, and none touches the player. There are exactly 4 when four draws are accepted; otherwise the result is `false` and the enemies accepted so far stay. Details below the table |
| `Game.Round.SpawnEnemies` | app/src/main/java/com/boxgame/MainActivity.kt:91-112 | the `repeat(4)` loop: the enemies are fresh objects placed, in order, at the first accepted spawns, each with its own drawn speeds. None of them touches the player |

`Game.Round.ResetGame` promises the following:

- both flags are clear, `currentGameTime` is 0 and the player is centred;
- when four draws are accepted, there are exactly 4 fresh enemies;
- the enemies sit at the first accepted spawns, each outside the exclusion
  zone and inside the spawn range;
- each enemy's velocity is its (10..14, 10..14) draw;
- no enemy touches the player;
- when the draws run out before four are accepted, the result is `false`
  and the enemies accepted so far are in place.

Points of the code worth knowing:

- The survived time is `currentGameTime / 1000` from the last tick
  (`calcTime`, lines 78-80). `endTime` is written by `endClock` but never read.
- `startClock` does not zero the elapsed time. Only `resetGame` sets it to 0.
- `endClock` sets `gameOver` in any state, not only in a running round.
- From (35, 35) with velocity (10, 10) and border 40 nothing bounces. The
  candidate (45, 45) is inside the interior, so the enemy moves there and
  keeps its velocity (`NoBounceWhenCandidateInside`). A bounce at that corner
  needs a velocity pointing at the border (`CornerBounce`).
- `resetGame` has no bound on its retries and no check of the field size.

## Left out

- Compose rendering (the `Text`s, `Canvas` drawing, `AlertDialog`, layout): it only displays state.
- The gesture and coroutine plumbing (`pointerInput`, `detectDragGestures`,
  `LaunchedEffect`, `delay(30L)`). Drag start, drag, drag end, tick and reset
  are plain method calls on one thread. The tick loop takes its clock
  readings as a sequence.
- `System.currentTimeMillis()`: every handler that reads the clock takes the
  time as a parameter.
- `Random.nextFloat` and `Random.nextInt`: their results are parameters. The
  position draws are a finite sequence of pairs in [0, 1). The speed draws
  are four pairs in [10, 15).
- Round.ResetGame: the source's rejection loop may never end. The model runs
  it over a finite stream of draws and reports `false` when the stream is used
  up. It says nothing about termination or about how likely acceptance is.
- Round.constructor: requires a field wider than 2·40 + 60 = 140. The width
  really comes from the display metrics minus 32 dp. Below 120, `coerceIn`
  would throw in the drag handler, and below 140 the spawn and bounce ranges
  are empty. Those widths are not modelled. Between 140 and 340 the model
  applies, and every candidate lies in the exclusion zone
  (`NarrowFieldRejectsEveryDraw`). The source's reset then never leaves its
  first `do … while`, and the model's `ResetGame` returns `false` with no
  enemies for any draws (`NarrowFieldAcceptsNothing`). From 340 on, a
  candidate can be accepted (`WideFieldAcceptsCornerDraw`).
- IEEE-754 rounding. In exact arithmetic, the tick's add-then-subtract of
  `boxOffset` leaves the player where it was. With floats it might not. The
  `"%.2f"` formatting and the `Log.d` call are left out too.
- The key-value store: `HawkUtil.kt` is reduced to the `storedBest` field.
  The constructor reads it (`getBestTime`, default 0), and `RecordSurvival`
  writes it (`saveBestTime`).
- Recomposition and effect-restart semantics. Each game-over triggers the
  best-time effect once, modelled as one call of `RecordSurvival`.
