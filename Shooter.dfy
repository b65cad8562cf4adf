/**
 The shooter's session: the state the original keeps in refs and React
 state, advanced one animation tick at a time. The clock and the random
 draws are parameters; drawing, scheduling and storage are not modelled.
 */
module Shooter {
  import opened Entities
  import opened Sequences
  import opened Collisions
  import opened Motion
  import opened Session

  /** Where a fresh session puts the player: centred, 80 units above the bottom. */
  const StartPlayer: Player := Player(Width / 2.0, Height - 80.0, PlayerRadius)

  /** Some enemy overlaps the player. */
  predicate AnyEnemyHitsPlayer(es: seq<Enemy>, p: Player) {
    exists i :: 0 <= i < |es| && EnemyHitsPlayer(es[i], p)
  }

  /** The bullets after the autofire gate at clock reading `time`. */
  function Fired(bs: seq<Bullet>, p: Player, time: real, lastFire: real): seq<Bullet>
  {
    if time - lastFire > FireInterval then bs + [Shot(p)] else bs
  }

  /** The enemies after the spawn gate at clock reading `time`. */
  function Spawned(es: seq<Enemy>, time: real, lastSpawn: real,
                   drawX: real, drawSpeed: real, drawHp: real): seq<Enemy>
    requires 0.0 <= drawX < 1.0 && 0.0 <= drawSpeed < 1.0 && 0.0 <= drawHp < 1.0
  {
    if time - lastSpawn > SpawnInterval then es + [NewEnemy(drawX, drawSpeed, drawHp)] else es
  }

  /** Every bullet is a standard bullet below the top limit. */
  predicate BulletsSound(bs: seq<Bullet>) {
    forall b :: b in bs ==> b.r == BulletRadius && BulletOnField(b)
  }

  /** Every enemy is a standard enemy with one or two hit points above the bottom limit. */
  predicate FleetSound(es: seq<Enemy>) {
    forall e :: e in es ==> e.r == EnemyRadius && Alive(e) && e.hp <= 2 && EnemyOnField(e)
  }

  /**
   Bullets and enemies after the steps of a tick that precede the player
   check: autofire, spawn, movement with the off-field filter, and the
   bullet-against-enemy pass.
   */
  function Step(bs: seq<Bullet>, es: seq<Enemy>, p: Player, time: real, delta: real,
                lastFire: real, lastSpawn: real,
                drawX: real, drawSpeed: real, drawHp: real): Outcome
    requires 0.0 <= drawX < 1.0 && 0.0 <= drawSpeed < 1.0 && 0.0 <= drawHp < 1.0
  {
    Resolve(Filter(MoveDown(Spawned(es, time, lastSpawn, drawX, drawSpeed, drawHp), delta), EnemyOnField),
            Filter(MoveUp(Fired(bs, p, time, lastFire), delta), BulletOnField))
  }

  /** Moving and filtering standard bullets leaves sound bullets. */
  lemma MovedBulletsSound(bs: seq<Bullet>, delta: real)
    requires forall b :: b in bs ==> b.r == BulletRadius
    ensures BulletsSound(Filter(MoveUp(bs, delta), BulletOnField))
  {
    var moved := MoveUp(bs, delta);
    FilterSpec(moved, BulletOnField);
    forall b | b in Filter(moved, BulletOnField)
      ensures b.r == BulletRadius && BulletOnField(b)
    {
      var i :| 0 <= i < |moved| && moved[i] == b;
      MoveUpAt(bs, delta, i);
      assert bs[i] in bs;
    }
  }

  /** Moving and filtering standard, alive enemies leaves a sound fleet. */
  lemma MovedFleetSound(es: seq<Enemy>, delta: real)
    requires forall e :: e in es ==> e.r == EnemyRadius && Alive(e) && e.hp <= 2
    ensures FleetSound(Filter(MoveDown(es, delta), EnemyOnField))
  {
    var moved := MoveDown(es, delta);
    FilterSpec(moved, EnemyOnField);
    forall e | e in Filter(moved, EnemyOnField)
      ensures e.r == EnemyRadius && Alive(e) && e.hp <= 2 && EnemyOnField(e)
    {
      var i :| 0 <= i < |moved| && moved[i] == e;
      MoveDownAt(es, delta, i);
      assert es[i] in es;
    }
  }

  /**
   The steps of a tick keep bullets and enemies sound, whatever the clock,
   the elapsed time and the random draws.
   */
  lemma StepKeepsSound(bs: seq<Bullet>, es: seq<Enemy>, p: Player, time: real, delta: real,
                       lastFire: real, lastSpawn: real,
                       drawX: real, drawSpeed: real, drawHp: real)
    requires 0.0 <= drawX < 1.0 && 0.0 <= drawSpeed < 1.0 && 0.0 <= drawHp < 1.0
    requires BulletsSound(bs) && FleetSound(es)
    ensures BulletsSound(Step(bs, es, p, time, delta, lastFire, lastSpawn, drawX, drawSpeed, drawHp).bullets)
    ensures FleetSound(Step(bs, es, p, time, delta, lastFire, lastSpawn, drawX, drawSpeed, drawHp).enemies)
  {
    var fired := Fired(bs, p, time, lastFire);
    var spawned := Spawned(es, time, lastSpawn, drawX, drawSpeed, drawHp);
    assert forall b :: b in fired ==> b.r == BulletRadius;
    assert forall e :: e in spawned ==> e.r == EnemyRadius && Alive(e) && e.hp <= 2;
    var moving := Filter(MoveUp(fired, delta), BulletOnField);
    var falling := Filter(MoveDown(spawned, delta), EnemyOnField);
    MovedBulletsSound(fired, delta);
    MovedFleetSound(spawned, delta);
    var out := Resolve(falling, moving);
    ResolveBulletsKept(falling, moving);
    SubseqMembers(out.bullets, moving);
    ResolveKeepsAlive(falling, moving);
  }

  /**
   The player check of a tick: enemies are scanned from the highest index
   down and the scan stops at the first one that overlaps the player.
   */
  method FindPlayerHit(es: seq<Enemy>, p: Player) returns (hit: bool)
    ensures hit <==> AnyEnemyHitsPlayer(es, p)
  {
    var i := |es| - 1;
    while i >= 0
      invariant -1 <= i < |es|
      invariant forall k :: i < k < |es| ==> !EnemyHitsPlayer(es[k], p)
    {
      if EnemyHitsPlayer(es[i], p) {
        return true;
      }
      i := i - 1;
    }
    return false;
  }

  class Game {
    var player: Player
    var bullets: seq<Bullet>
    var enemies: seq<Enemy>
    var lastTime: real
    var lastSpawn: real
    var lastFire: real
    var score: real
    var highScore: int
    var status: Status

    /**
     What holds between ticks: the player is inside the field, every bullet
     is a standard bullet below the top limit, and every enemy is a
     standard enemy with one or two hit points above the bottom limit.
     */
    ghost predicate Valid()
      reads this`player, this`bullets, this`enemies
    {
      player.r == PlayerRadius && InField(player) && BulletsSound(bullets) && FleetSound(enemies)
    }

    /** The state when the page first renders. */
    constructor ()
      ensures Valid()
      ensures player == StartPlayer && bullets == [] && enemies == []
      ensures lastTime == 0.0 && lastSpawn == 0.0 && lastFire == 0.0
      ensures score == 0.0 && highScore == 0 && status == Idle
    {
      player := StartPlayer;
      bullets := [];
      enemies := [];
      lastTime := 0.0;
      lastSpawn := 0.0;
      lastFire := 0.0;
      score := 0.0;
      highScore := 0;
      status := Idle;
    }

    /** A new session, from the title screen or after a game over. */
    method StartGame()
      modifies this
      ensures Valid()
      ensures bullets == [] && enemies == [] && score == 0.0
      ensures lastSpawn == 0.0 && lastFire == 0.0 && player == StartPlayer
      ensures status == Running
      ensures highScore == old(highScore) && lastTime == old(lastTime)
    {
      bullets := [];
      enemies := [];
      score := 0.0;
      lastSpawn := 0.0;
      lastFire := 0.0;
      player := StartPlayer;
      status := Running;
    }

    /** When the status changes, a running session restarts the clock at `now`. */
    method StartLoop(now: real)
      modifies this`lastTime
      ensures lastTime == if status == Running then now else old(lastTime)
    {
      if status == Running {
        lastTime := now;
      }
    }

    /** The session ends; the high score becomes the larger of it and the floored score. */
    method EndGame()
      modifies this`status, this`highScore
      ensures status == GameOver
      ensures highScore == NextHighScore(old(highScore), score)
      ensures highScore >= old(highScore)
    {
      status := GameOver;
      highScore := NextHighScore(highScore, score);
    }

    /** The pointer at field coordinates (x, y) moves the player there, clamped. */
    method HandlePointer(x: real, y: real)
      requires Valid()
      modifies this`player
      ensures Valid()
      ensures player == PointerTarget(old(player), x, y)
    {
      player := PointerTarget(player, x, y);
    }

    /** Autofire: a bullet leaves the player once the fire interval has strictly passed. */
    method AutoFire(time: real)
      modifies this`bullets, this`lastFire
      ensures time - old(lastFire) > FireInterval ==>
        bullets == old(bullets) + [Shot(player)] && lastFire == time
      ensures time - old(lastFire) <= FireInterval ==>
        bullets == old(bullets) && lastFire == old(lastFire)
      ensures bullets == Fired(old(bullets), player, time, old(lastFire))
    {
      if time - lastFire > FireInterval {
        lastFire := time;
        bullets := bullets + [Shot(player)];
      }
    }

    /** The spawner: an enemy enters once the spawn interval has strictly passed. */
    method SpawnEnemy(time: real, drawX: real, drawSpeed: real, drawHp: real)
      requires 0.0 <= drawX < 1.0 && 0.0 <= drawSpeed < 1.0 && 0.0 <= drawHp < 1.0
      modifies this`enemies, this`lastSpawn
      ensures time - old(lastSpawn) > SpawnInterval ==>
        enemies == old(enemies) + [NewEnemy(drawX, drawSpeed, drawHp)] && lastSpawn == time
      ensures time - old(lastSpawn) <= SpawnInterval ==>
        enemies == old(enemies) && lastSpawn == old(lastSpawn)
      ensures enemies == Spawned(old(enemies), time, old(lastSpawn), drawX, drawSpeed, drawHp)
    {
      if time - lastSpawn > SpawnInterval {
        lastSpawn := time;
        enemies := enemies + [NewEnemy(drawX, drawSpeed, drawHp)];
      }
    }

    /** Every bullet climbs by its speed times `delta`; those past the top are dropped. */
    method MoveBullets(delta: real)
      modifies this`bullets
      ensures bullets == Filter(MoveUp(old(bullets), delta), BulletOnField)
    {
      var i := 0;
      while i < |bullets|
        invariant 0 <= i <= |bullets| == |old(bullets)|
        invariant forall k :: 0 <= k < i ==> bullets[k] == MoveUp(old(bullets), delta)[k]
        invariant forall k :: i <= k < |bullets| ==> bullets[k] == old(bullets)[k]
      {
        bullets := bullets[i := bullets[i].(y := bullets[i].y - bullets[i].speed * delta)];
        i := i + 1;
      }
      assert bullets == MoveUp(old(bullets), delta);
      bullets := Filter(bullets, BulletOnField);
    }

    /** Every enemy descends by its speed times `delta`; those past the bottom are dropped. */
    method MoveEnemies(delta: real)
      modifies this`enemies
      ensures enemies == Filter(MoveDown(old(enemies), delta), EnemyOnField)
    {
      var i := 0;
      while i < |enemies|
        invariant 0 <= i <= |enemies| == |old(enemies)|
        invariant forall k :: 0 <= k < i ==> enemies[k] == MoveDown(old(enemies), delta)[k]
        invariant forall k :: i <= k < |enemies| ==> enemies[k] == old(enemies)[k]
      {
        enemies := enemies[i := enemies[i].(y := enemies[i].y + enemies[i].speed * delta)];
        i := i + 1;
      }
      assert enemies == MoveDown(old(enemies), delta);
      enemies := Filter(enemies, EnemyOnField);
    }

    /**
     The turn of the enemy of index i: bullets are scanned from the highest
     index down; the first that overlaps the enemy is spliced out, the
     enemy loses a hit point, and at zero or below it is spliced out too
     and the kill bonus is credited.
     */
    method StrikeEnemy(i: int)
      requires 0 <= i < |enemies|
      modifies this`bullets, this`enemies, this`score
      ensures bullets == EnemyTurn(old(enemies)[i], old(bullets)).bullets
      ensures enemies == old(enemies)[..i] + Survivor(EnemyTurn(old(enemies)[i], old(bullets))) + old(enemies)[i + 1..]
      ensures score == old(score) +
        if EnemyTurn(old(enemies)[i], old(bullets)).fate == Destroyed then 10.0 else 0.0
    {
      var e := enemies[i];
      LastHitSpec(e, bullets);
      var j := |bullets| - 1;
      while j >= 0
        invariant -1 <= j < |bullets|
        invariant bullets == old(bullets) && enemies == old(enemies) && score == old(score)
        invariant forall k :: j < k < |bullets| ==> !BulletHits(e, bullets[k])
      {
        if BulletHits(e, bullets[j]) {
          assert LastHit(e, bullets) == Some(j);
          bullets := bullets[..j] + bullets[j + 1..];
          enemies := enemies[i := enemies[i].(hp := enemies[i].hp - 1)];
          if enemies[i].hp <= 0 {
            enemies := enemies[..i] + enemies[i + 1..];
            score := score + 10.0;
          } else {
            assert enemies == old(enemies)[..i] + [enemies[i]] + old(enemies)[i + 1..];
          }
          return;
        }
        j := j - 1;
      }
      assert LastHit(e, bullets) == None;
      assert enemies == old(enemies)[..i] + [e] + old(enemies)[i + 1..];
    }

    /**
     Bullet-against-enemy collisions, splicing both lists in place: each
     enemy takes its turn, from the highest index down.
     */
    method ResolveCollisions()
      modifies this`bullets, this`enemies, this`score
      ensures enemies == Resolve(old(enemies), old(bullets)).enemies
      ensures bullets == Resolve(old(enemies), old(bullets)).bullets
      ensures score == old(score) + 10.0 * (KillCount(Resolve(old(enemies), old(bullets)).fates) as real)
    {
      ghost var target := Resolve(enemies, bullets);
      ghost var done: seq<Fate> := [];
      var i := |enemies| - 1;
      OnCourseStart(enemies, bullets);
      while i >= 0
        invariant OnCourse(target, enemies, bullets, i, done)
        invariant score == old(score) + 10.0 * (KillCount(done) as real)
      {
        ghost var es, bs := enemies, bullets;
        ghost var fate := EnemyTurn(enemies[i], bullets).fate;
        StrikeEnemy(i);
        OnCourseStep(target, es, bs, i, done, enemies, bullets);
        KillCountAppend([fate], done);
        done := [fate] + done;
        i := i - 1;
      }
      OnCourseDone(target, enemies, bullets, done);
    }

    /** Autofire, spawn and movement, in that order. */
    method Prepare(time: real, delta: real, drawX: real, drawSpeed: real, drawHp: real)
      requires 0.0 <= drawX < 1.0 && 0.0 <= drawSpeed < 1.0 && 0.0 <= drawHp < 1.0
      modifies this`bullets, this`enemies, this`lastFire, this`lastSpawn
      ensures lastFire == if time - old(lastFire) > FireInterval then time else old(lastFire)
      ensures lastSpawn == if time - old(lastSpawn) > SpawnInterval then time else old(lastSpawn)
      ensures bullets == Filter(MoveUp(Fired(old(bullets), player, time, old(lastFire)), delta), BulletOnField)
      ensures enemies == Filter(MoveDown(Spawned(old(enemies), time, old(lastSpawn), drawX, drawSpeed, drawHp), delta), EnemyOnField)
    {
      AutoFire(time);
      SpawnEnemy(time, drawX, drawSpeed, drawHp);
      MoveBullets(delta);
      MoveEnemies(delta);
    }

    /**
     The part of a tick before the player check: autofire, spawn, movement
     and bullet collisions, in that order.
     */
    method Advance(time: real, delta: real, drawX: real, drawSpeed: real, drawHp: real)
        returns (ghost out: Outcome)
      requires Valid()
      requires 0.0 <= drawX < 1.0 && 0.0 <= drawSpeed < 1.0 && 0.0 <= drawHp < 1.0
      modifies this`bullets, this`enemies, this`score, this`lastFire, this`lastSpawn
      ensures out == Step(old(bullets), old(enemies), old(player), time, delta,
                          old(lastFire), old(lastSpawn), drawX, drawSpeed, drawHp)
      ensures Valid()
      ensures lastFire == if time - old(lastFire) > FireInterval then time else old(lastFire)
      ensures lastSpawn == if time - old(lastSpawn) > SpawnInterval then time else old(lastSpawn)
      ensures enemies == out.enemies && bullets == out.bullets
      ensures score == old(score) + 10.0 * (KillCount(out.fates) as real)
    {
      StepKeepsSound(bullets, enemies, player, time, delta, lastFire, lastSpawn, drawX, drawSpeed, drawHp);
      Prepare(time, delta, drawX, drawSpeed, drawHp);
      out := Resolve(enemies, bullets);
      ResolveCollisions();
    }

    /**
     The end of a tick: an enemy overlapping the player ends the session;
     otherwise the survival bonus of two points per second is credited.
     */
    method CheckPlayer(delta: real)
      modifies this`status, this`highScore, this`score
      ensures if AnyEnemyHitsPlayer(enemies, player) then
          status == GameOver && score == old(score) &&
          highScore == NextHighScore(old(highScore), old(score))
        else
          status == old(status) && score == old(score) + delta * 2.0 &&
          highScore == old(highScore)
    {
      var hit := FindPlayerHit(enemies, player);
      if hit {
        EndGame();
        return;
      }
      score := score + delta * 2.0;
    }

    /**
     One animation tick at clock reading `time`, with the spawner's random
     draws: autofire, spawn, movement, bullet collisions, the player check
     (which ends the session and skips the rest), and the survival bonus.
     */
    method Tick(time: real, drawX: real, drawSpeed: real, drawHp: real) returns (ghost out: Outcome)
      requires Valid()
      requires 0.0 <= drawX < 1.0 && 0.0 <= drawSpeed < 1.0 && 0.0 <= drawHp < 1.0
      modifies this
      ensures out == Step(old(bullets), old(enemies), old(player), time, (time - old(lastTime)) / 1000.0,
                          old(lastFire), old(lastSpawn), drawX, drawSpeed, drawHp)
      ensures Valid()
      ensures lastTime == time && player == old(player)
      ensures lastFire == if time - old(lastFire) > FireInterval then time else old(lastFire)
      ensures lastSpawn == if time - old(lastSpawn) > SpawnInterval then time else old(lastSpawn)
      ensures enemies == out.enemies && bullets == out.bullets
      ensures
        var scored := old(score) + 10.0 * (KillCount(out.fates) as real);
        if AnyEnemyHitsPlayer(out.enemies, old(player)) then
          status == GameOver && score == scored &&
          highScore == NextHighScore(old(highScore), scored)
        else
          status == old(status) && score == scored + (time - old(lastTime)) / 1000.0 * 2.0 &&
          highScore == old(highScore)
    {
      hide Step;
      var delta := (time - lastTime) / 1000.0;
      lastTime := time;
      out := Advance(time, delta, drawX, drawSpeed, drawHp);
      CheckPlayer(delta);
    }
  }
}
