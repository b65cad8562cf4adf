# Vertical shooter core in Dafny

This project models the game logic of the single-page vertical shooter in
`src/app/page.tsx`. The player sits near the bottom of a 360 × 640 field
and follows the pointer. The ship fires automatically. Enemies spawn at the
top and fall. Bullets destroy enemies for 10 points each, survival earns
2 points per second, and an enemy touching the player ends the session.

The model is organised as follows:

- `Entities.dfy`: the game constants, the status values, the player,
  bullet and enemy records, and the circle hit test. As in the original
  the test uses a strict comparison, so circles exactly touching do not
  collide.
- `Sequences.dfy`: the order-preserving filter the tick applies to its
  lists, and the subsequence relation used to state that an operation
  only deletes.
- `Collisions.dfy`: the bullet-against-enemy pass as a reference
  definition on values (`Resolve`), together with its properties:
  - one fate per enemy;
  - each enemy consumes at most one bullet, the overlapping one of highest
    index;
  - removed enemies are exactly the ones whose decremented hit points reach
    0;
  - the order is kept.

  It also holds the in-place form the original executes (`Sweep`), proved
  equal to `Resolve`.
- `Motion.dfy`: the autofire bullet, the spawned enemy (the random draws
  are parameters in [0, 1)), and movement with the off-field filters.
- `Session.dfy`: the pointer clamp and the high-score rule.
- `Shooter.dfy`: the session state as a class `Game`, whose fields are the
  refs and React state of the original. Its methods follow `update`,
  `startGame`, `endGame` and `handlePointer` step by step:
  - in-place loops over the bullet and enemy lists;
  - the reverse collision loops that splice both lists;
  - the early return on a player hit.

  Each method is proved against the functions of the other modules.
  `Valid()` is the invariant the tick keeps:
  - the player is inside the field;
  - every bullet is a standard bullet below the top limit;
  - every enemy is a standard enemy with one or two hit points above the
    bottom limit.

Reals stand for the original's doubles. The hit test `hypot(dx, dy) < s`
is written as `0 < s && dx² + dy² < s²`. `TouchMatchesDistance` proves
this agrees with the distance comparison for every distance `d ≥ 0` with
`d² = dx² + dy²`.

## Model

| member | source | states |
|---|---|---|
| Entities.TouchMatchesDistance | src/app/page.tsx:236-239 | the squared test holds exactly when the centre distance is strictly below the reach; at distance equal to the reach there is no contact |
| Entities.BulletHitsByDistance | src/app/page.tsx:236-239 | a bullet strikes an enemy exactly when their centre distance is strictly below the sum of their radii |
| Entities.PlayerHitByDistance | src/app/page.tsx:254-257 | an enemy reaches the player exactly when their centre distance is strictly below the sum of their radii |
| Sequences.FilterSpec | src/app/page.tsx:222 | an element is in the filtered list exactly when it is in the input and satisfies the predicate, and the filtered list is a subsequence of its input |
| Sequences.FilterCounts | src/app/page.tsx:222 | every element satisfying the predicate survives the filter as many times as it occurs in the input, and no other element survives |
| Collisions.LastHitSpec | src/app/page.tsx:234-239 | the reverse bullet scan finds a bullet exactly when one overlaps the enemy, and then the overlapping bullet of highest index |
| Collisions.EnemyTurnSpec | src/app/page.tsx:234-247 | an enemy is missed iff no bullet overlaps it, and then nothing changes; otherwise exactly the highest-index overlapping bullet is spliced out, the enemy loses one hit point, and it is destroyed iff its hit points drop to 0 or below |
| Collisions.SweepIsResolve | src/app/page.tsx:232-249 | the in-place pass (enemies from the highest index down, each splicing the lists it works on) equals the reference pass on values |
| Collisions.ResolveCounts | src/app/page.tsx:232-249 | one fate per enemy; bullets removed equal the number of enemies hit; enemies removed equal the number destroyed |
| Collisions.ResolveBulletsKept | src/app/page.tsx:232-249 | the pass only deletes bullets, keeping the others in their order |
| Collisions.ResolveEnemies | src/app/page.tsx:232-249 | the remaining enemies are the input enemies in order, each unchanged if missed, one hit point down if damaged, and absent if destroyed |
| Collisions.ResolveFatesAgree | src/app/page.tsx:240-245 | a struck enemy is destroyed exactly when its decremented hit points are at most 0 |
| Collisions.ResolveNoContact | src/app/page.tsx:232-249 | when no bullet overlaps any enemy the pass changes no list and hits nothing |
| Collisions.ResolveKeepsAlive | src/app/page.tsx:232-249 | if every enemy entering the pass is alive, every enemy leaving it is alive and is an input enemy with only its hit points lowered |
| Collisions.KillCountAppend | src/app/page.tsx:242-245 | kills over consecutive turns add up, which is how the score credit of 10 per kill accumulates |
| Motion.Shot | src/app/page.tsx:197-202 | the autofire bullet starts at the player's x, 6 units above the nose, with the bullet speed and radius |
| Motion.NewEnemy | src/app/page.tsx:208-217 | a spawned enemy has radius 16 and y = -16, with x in [16, 344), speed in [80, 180), and 2 hit points exactly when the third draw is below 0.2 (1 otherwise) |
| Motion.MoveBulletsSpec | src/app/page.tsx:221-222 | every surviving bullet has y > -20 and is an input bullet moved up by exactly speed·delta; every moved bullet with y > -20 survives as many times as it occurs, and none with y ≤ -20 does; order is kept |
| Motion.MoveEnemiesSpec | src/app/page.tsx:225-226 | every surviving enemy has y < 680 and is an input enemy moved down by exactly speed·delta; every moved enemy with y < 680 survives as many times as it occurs, and none with y ≥ 680 does; order is kept |
| Session.Clamp | src/app/page.tsx:315-316 | the clamped coordinate lies between the player radius and the extent minus the radius, and an in-range coordinate is unchanged |
| Session.ClampIdempotent | src/app/page.tsx:315-316 | clamping twice equals clamping once |
| Session.PointerTarget | src/app/page.tsx:315-316 | the pointer moves the player into [16, 344] × [16, 624], keeping its radius and any in-range coordinate |
| Session.NextHighScore | src/app/page.tsx:301 | the new high score is the larger of the previous one and the floored score, so it never decreases |
| Session.NextHighScoreStable | src/app/page.tsx:301 | a second update with the same score changes nothing, and a score below the high score plus one leaves it as it is |
| Shooter.MovedBulletsSound | src/app/page.tsx:221-222 | moving and filtering bullets of the standard radius leaves only standard bullets below the top limit |
| Shooter.MovedFleetSound | src/app/page.tsx:225-226 | moving and filtering standard, alive enemies with at most 2 hit points leaves only such enemies above the bottom limit |
| Shooter.StepKeepsSound | src/app/page.tsx:193-249 | autofire, spawn, movement and collisions keep every bullet standard and on the field, and every enemy standard, alive, with at most 2 hit points and on the field |
| Shooter.FindPlayerHit | src/app/page.tsx:251-261 | the reverse scan reports a hit exactly when some enemy overlaps the player |
| Shooter.Game.constructor | src/app/page.tsx:30-45 | the initial state: player centred 80 units above the bottom, no bullets or enemies, timers, score and high score 0, status idle |
| Shooter.Game.StartGame | src/app/page.tsx:284-296 | from any status: lists emptied; score, lastSpawn and lastFire zeroed; player at (180, 560) with radius 16; status running; high score kept |
| Shooter.Game.StartLoop | src/app/page.tsx:269-275 | when the status is running, the clock reference restarts at the given reading |
| Shooter.Game.EndGame | src/app/page.tsx:298-307 | status becomes game over and the high score becomes max(previous, floor(score)) |
| Shooter.Game.HandlePointer | src/app/page.tsx:309-317 | the player moves to the clamped pointer position, and the invariant is kept |
| Shooter.Game.AutoFire | src/app/page.tsx:194-203 | a bullet is appended and lastFire set exactly when more than 180 ms have passed since the last shot; otherwise nothing changes |
| Shooter.Game.SpawnEnemy | src/app/page.tsx:206-218 | an enemy is appended and lastSpawn set exactly when more than 700 ms have passed since the last spawn; otherwise nothing changes |
| Shooter.Game.MoveBullets | src/app/page.tsx:221-222 | the new bullet list is the old one moved up by speed·delta and filtered to y > -20 |
| Shooter.Game.MoveEnemies | src/app/page.tsx:225-226 | the new enemy list is the old one moved down by speed·delta and filtered to y < 680 |
| Shooter.Game.StrikeEnemy | src/app/page.tsx:233-248 | one enemy's turn done in place: the lists become the enemy's turn applied at its index, and the score rises by 10 exactly when it is destroyed |
| Shooter.Game.ResolveCollisions | src/app/page.tsx:229-249 | the nested reverse loops leave exactly the lists of the reference pass, and the score rises by 10 per destroyed enemy |
| Shooter.Game.Prepare | src/app/page.tsx:193-226 | autofire, spawn and movement give the gated, moved and filtered lists and the updated timers |
| Shooter.Game.Advance | src/app/page.tsx:193-249 | the lists after a tick's steps before the player check are those of the reference step; the score rises by 10 per kill; the invariant is kept |
| Shooter.Game.CheckPlayer | src/app/page.tsx:251-263 | an overlapping enemy ends the session without the survival bonus; otherwise 2 points per second of delta are credited and the status is kept |
| Shooter.Game.Tick | src/app/page.tsx:180-264 | one tick with delta = (time − lastTime)/1000. The lists come from the reference step and the kills are credited. If an enemy then overlaps the player, the session is over, with its high score updated and no survival bonus. Otherwise the bonus is added and the status kept. The invariant is preserved |

## Left out

- Drawing the canvas (`draw`), the overlay markup, and resizing and scaling the canvas: these are rendering only. `HandlePointer` takes coordinates already in field units. It also leaves out the early return when no canvas element exists.
- The star field: it is cosmetic and random, and affects no game state.
- Reading and writing the high score in `localStorage`, and the `Number(saved) || 0` coercion: these are persistence I/O.
- `requestAnimationFrame`, `cancelAnimationFrame` and `performance.now`: these are host scheduling. The clock readings are parameters of `Tick` and `StartLoop`.
- `Math.random`: the spawner's three draws are parameters in [0, 1), taken in the original's order (horizontal offset, speed, toughness).
- React state semantics: the model applies `setScore` and `setStatus` immediately to fields.
  - `EndGame` reads the live score. In the original it reads the `score` captured by the render that started the loop. `startGame` sets the score to 0 and the status to running in one batch (src/app/page.tsx:287, 295). The loop effect depends only on the status (src/app/page.tsx:282), so that captured score is always 0. The original's `Math.max(prev, Math.floor(score))` (src/app/page.tsx:301) therefore never raises the high score above its stored value. The model keeps the evidently intended rule, and the batching and staleness of React state updates are not modelled.
  - `Tick` is not restricted to a running session. In the original the loop is scheduled only while running.
- IEEE double arithmetic: rounding and overflow are not modelled. Positions, speeds, delta and score are exact reals. `hypot` is replaced by the equivalent squared comparison.
- Shooter.Game.StrikeEnemy: the inner loop leaves with `return` where the original uses `break`. The two coincide because nothing follows the inner loop in the enemy's iteration.
- The puzzle (slide/merge) engine is not part of this model, because it is not in the source.
