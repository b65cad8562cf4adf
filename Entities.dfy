/**
 The shooter's fixed configuration, its entities and the circle hit test.
 Coordinates, speeds and radii are `real`: the model abstracts the IEEE
 doubles of the original by exact arithmetic.
 */
module Entities {

  // The field and entity constants of the game configuration.
  const Width: real := 360.0
  const Height: real := 640.0
  const PlayerRadius: real := 16.0
  const BulletRadius: real := 4.0
  const EnemyRadius: real := 16.0
  const BulletSpeed: real := 480.0
  const EnemySpeedMin: real := 80.0
  const EnemySpeedMax: real := 180.0
  const SpawnInterval: real := 700.0
  const FireInterval: real := 180.0

  datatype Status = Idle | Running | GameOver

  datatype Player = Player(x: real, y: real, r: real)
  datatype Bullet = Bullet(x: real, y: real, speed: real, r: real)
  datatype Enemy = Enemy(x: real, y: real, speed: real, r: real, hp: int)

  /**
   Two circles whose centres are (dx, dy) apart and whose radii add up to
   `reach` overlap. The original compares `hypot(dx, dy) < reach`; since
   the Euclidean distance is never negative, that holds exactly when
   `reach` is positive and the squared distance is below `reach` squared.
   */
  predicate Touch(dx: real, dy: real, reach: real) {
    0.0 < reach && dx * dx + dy * dy < reach * reach
  }

  predicate BulletHits(e: Enemy, b: Bullet) {
    Touch(e.x - b.x, e.y - b.y, e.r + b.r)
  }

  predicate EnemyHitsPlayer(e: Enemy, p: Player) {
    Touch(e.x - p.x, e.y - p.y, e.r + p.r)
  }

  /**
   The squared test agrees with the original's distance test: for the
   distance `d` between the centres, `Touch` holds exactly when
   `d < reach`. In particular, circles whose centres are exactly `reach`
   apart do not touch.
   */
  lemma TouchMatchesDistance(dx: real, dy: real, reach: real, d: real)
    requires 0.0 <= d && d * d == dx * dx + dy * dy
    ensures Touch(dx, dy, reach) <==> d < reach
    ensures d == reach ==> !Touch(dx, dy, reach)
  {
    if d < reach {
      MulMonotone(d, d, reach);
      MulStrict(reach, d, reach);
      calc {
        dx * dx + dy * dy;
      ==
        d * d;
      <=
        d * reach;
      ==
        reach * d;
      <
        reach * reach;
      }
    } else if 0.0 < reach {
      MulMonotone(reach, reach, d);
      MulMonotone(d, reach, d);
      calc {
        reach * reach;
      <=
        reach * d;
      ==
        d * reach;
      <=
        d * d;
      ==
        dx * dx + dy * dy;
      }
    }
  }

  /**
   A bullet strikes an enemy exactly when the distance `d` between their
   centres is strictly below the sum of their radii.
   */
  lemma BulletHitsByDistance(e: Enemy, b: Bullet, d: real)
    requires 0.0 <= d && d * d == (e.x - b.x) * (e.x - b.x) + (e.y - b.y) * (e.y - b.y)
    ensures BulletHits(e, b) <==> d < e.r + b.r
  {
    TouchMatchesDistance(e.x - b.x, e.y - b.y, e.r + b.r, d);
  }

  /**
   An enemy reaches the player exactly when the distance `d` between their
   centres is strictly below the sum of their radii.
   */
  lemma PlayerHitByDistance(e: Enemy, p: Player, d: real)
    requires 0.0 <= d && d * d == (e.x - p.x) * (e.x - p.x) + (e.y - p.y) * (e.y - p.y)
    ensures EnemyHitsPlayer(e, p) <==> d < e.r + p.r
  {
    TouchMatchesDistance(e.x - p.x, e.y - p.y, e.r + p.r, d);
  }

  lemma MulMonotone(k: real, a: real, b: real)
    requires 0.0 <= k && a <= b
    ensures k * a <= k * b
  {}

  lemma MulStrict(k: real, a: real, b: real)
    requires 0.0 < k && a < b
    ensures k * a < k * b
  {}
}
