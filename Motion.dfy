/**
 Creation and movement of bullets and enemies within one tick.
 */
module Motion {
  import opened Entities
  import opened Sequences

  /** The bullet the autofire releases just above the player's nose. */
  function Shot(p: Player): (b: Bullet)
    ensures b.x == p.x && b.y == p.y - p.r - 6.0 && b.y < p.y - p.r
    ensures b.speed == BulletSpeed && b.r == BulletRadius
  {
    Bullet(p.x, p.y - p.r - 6.0, BulletSpeed, BulletRadius)
  }

  /**
   The enemy the spawner releases, given the three uniform draws in [0, 1)
   the original takes in order: horizontal offset, speed, toughness.
   */
  function NewEnemy(drawX: real, drawSpeed: real, drawHp: real): (e: Enemy)
    requires 0.0 <= drawX < 1.0 && 0.0 <= drawSpeed < 1.0 && 0.0 <= drawHp < 1.0
    ensures e.r == EnemyRadius && e.y == -e.r
    ensures e.r <= e.x < Width - e.r
    ensures EnemySpeedMin <= e.speed < EnemySpeedMax
    ensures e.hp == 1 || e.hp == 2
    ensures e.hp == 2 <==> drawHp < 0.2
  {
    var r := EnemyRadius;
    Enemy(r + drawX * (Width - r * 2.0),
          -r,
          EnemySpeedMin + drawSpeed * (EnemySpeedMax - EnemySpeedMin),
          r,
          if drawHp < 0.2 then 2 else 1)
  }

  /** Every bullet moved up by its speed times `delta`. */
  function MoveUp(bs: seq<Bullet>, delta: real): seq<Bullet> {
    seq(|bs|, i requires 0 <= i < |bs| => bs[i].(y := bs[i].y - bs[i].speed * delta))
  }

  lemma MoveUpAt(bs: seq<Bullet>, delta: real, i: nat)
    requires i < |bs|
    ensures |MoveUp(bs, delta)| == |bs|
    ensures MoveUp(bs, delta)[i] == bs[i].(y := bs[i].y - bs[i].speed * delta)
  {}

  /** Every enemy moved down by its speed times `delta`. */
  function MoveDown(es: seq<Enemy>, delta: real): seq<Enemy> {
    seq(|es|, i requires 0 <= i < |es| => es[i].(y := es[i].y + es[i].speed * delta))
  }

  lemma MoveDownAt(es: seq<Enemy>, delta: real, i: nat)
    requires i < |es|
    ensures |MoveDown(es, delta)| == |es|
    ensures MoveDown(es, delta)[i] == es[i].(y := es[i].y + es[i].speed * delta)
  {}

  /** A bullet above this line has left the top of the field. */
  predicate BulletOnField(b: Bullet) {
    b.y > -20.0
  }

  /** An enemy below this line has left the bottom of the field. */
  predicate EnemyOnField(e: Enemy) {
    e.y < Height + 40.0
  }

  /**
   After the bullet step every survivor is on the field and is an input
   bullet moved up by exactly speed times delta; every input bullet whose
   moved position is on the field survives, as many times as it occurs;
   the order is kept.
   */
  lemma MoveBulletsSpec(bs: seq<Bullet>, delta: real)
    ensures forall b :: b in Filter(MoveUp(bs, delta), BulletOnField) ==>
      b.y > -20.0 &&
      exists i :: 0 <= i < |bs| && b == bs[i].(y := bs[i].y - bs[i].speed * delta)
    ensures forall i :: 0 <= i < |bs| && bs[i].y - bs[i].speed * delta > -20.0 ==>
      bs[i].(y := bs[i].y - bs[i].speed * delta) in Filter(MoveUp(bs, delta), BulletOnField)
    ensures forall b :: (multiset(Filter(MoveUp(bs, delta), BulletOnField))[b] ==
                         if b.y > -20.0 then multiset(MoveUp(bs, delta))[b] else 0)
    ensures IsSubseq(Filter(MoveUp(bs, delta), BulletOnField), MoveUp(bs, delta))
  {
    var moved := MoveUp(bs, delta);
    assert forall b :: (multiset(Filter(moved, BulletOnField))[b] ==
                        if b.y > -20.0 then multiset(moved)[b] else 0) by {
      FilterCounts(moved, BulletOnField);
    }
    FilterSpec(moved, BulletOnField);
    forall b | b in Filter(moved, BulletOnField)
      ensures b.y > -20.0 && exists i :: 0 <= i < |bs| && b == bs[i].(y := bs[i].y - bs[i].speed * delta)
    {
      assert b in moved && BulletOnField(b);
      var i :| 0 <= i < |moved| && moved[i] == b;
      MoveUpAt(bs, delta, i);
    }
    forall i | 0 <= i < |bs| && bs[i].y - bs[i].speed * delta > -20.0
      ensures bs[i].(y := bs[i].y - bs[i].speed * delta) in Filter(moved, BulletOnField)
    {
      MoveUpAt(bs, delta, i);
      assert BulletOnField(moved[i]) && moved[i] in moved;
    }
  }

  /**
   After the enemy step every survivor is above the bottom limit and is an
   input enemy moved down by exactly speed times delta; every input enemy
   whose moved position is above the limit survives, as many times as it
   occurs; the order is kept.
   */
  lemma MoveEnemiesSpec(es: seq<Enemy>, delta: real)
    ensures forall e :: e in Filter(MoveDown(es, delta), EnemyOnField) ==>
      e.y < Height + 40.0 &&
      exists i :: 0 <= i < |es| && e == es[i].(y := es[i].y + es[i].speed * delta)
    ensures forall i :: 0 <= i < |es| && es[i].y + es[i].speed * delta < Height + 40.0 ==>
      es[i].(y := es[i].y + es[i].speed * delta) in Filter(MoveDown(es, delta), EnemyOnField)
    ensures forall e :: (multiset(Filter(MoveDown(es, delta), EnemyOnField))[e] ==
                         if e.y < Height + 40.0 then multiset(MoveDown(es, delta))[e] else 0)
    ensures IsSubseq(Filter(MoveDown(es, delta), EnemyOnField), MoveDown(es, delta))
  {
    var moved := MoveDown(es, delta);
    assert forall e :: (multiset(Filter(moved, EnemyOnField))[e] ==
                        if e.y < Height + 40.0 then multiset(moved)[e] else 0) by {
      FilterCounts(moved, EnemyOnField);
    }
    FilterSpec(moved, EnemyOnField);
    forall e | e in Filter(moved, EnemyOnField)
      ensures e.y < Height + 40.0 && exists i :: 0 <= i < |es| && e == es[i].(y := es[i].y + es[i].speed * delta)
    {
      assert e in moved && EnemyOnField(e);
      var i :| 0 <= i < |moved| && moved[i] == e;
      MoveDownAt(es, delta, i);
    }
    forall i | 0 <= i < |es| && es[i].y + es[i].speed * delta < Height + 40.0
      ensures es[i].(y := es[i].y + es[i].speed * delta) in Filter(moved, EnemyOnField)
    {
      MoveDownAt(es, delta, i);
      assert EnemyOnField(moved[i]) && moved[i] in moved;
    }
  }
}
