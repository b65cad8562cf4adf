/**
 Bullet-against-enemy resolution as a reference definition on values.
 Enemies take their turns from the highest index down; on its turn an
 enemy is struck by at most one bullet, the highest-index one that
 overlaps it among the bullets still in flight, and that bullet is gone
 for the enemies whose turns come later.
 */
module Collisions {
  import opened Entities
  import opened Sequences

  datatype Option<T> = None | Some(value: T)

  /** What one enemy's turn did to it. */
  datatype Fate = Missed | Damaged | Destroyed

  /** The bullets left after an enemy's turn, its fate and its new state. */
  datatype Turn = Turn(bullets: seq<Bullet>, fate: Fate, enemy: Enemy)

  /**
   The result of a whole pass: the surviving enemies and bullets, and the
   fate of every enemy of the input, index for index.
   */
  datatype Outcome = Outcome(enemies: seq<Enemy>, bullets: seq<Bullet>, fates: seq<Fate>)

  /** The highest index of a bullet that overlaps `e`, if any does. */
  function LastHit(e: Enemy, bs: seq<Bullet>): (r: Option<nat>)
    ensures r.Some? ==> r.value < |bs|
    decreases |bs|
  {
    if bs == [] then None
    else if BulletHits(e, bs[|bs| - 1]) then Some(|bs| - 1)
    else LastHit(e, bs[..|bs| - 1])
  }

  /**
   The search finds a bullet exactly when one overlaps the enemy, and then
   the overlapping bullet of highest index.
   */
  lemma {:induction false} LastHitSpec(e: Enemy, bs: seq<Bullet>)
    ensures LastHit(e, bs).None? <==> forall k :: 0 <= k < |bs| ==> !BulletHits(e, bs[k])
    ensures LastHit(e, bs).Some? ==>
      LastHit(e, bs).value < |bs| && BulletHits(e, bs[LastHit(e, bs).value]) &&
      forall k :: LastHit(e, bs).value < k < |bs| ==> !BulletHits(e, bs[k])
    decreases |bs|
  {
    if bs != [] && !BulletHits(e, bs[|bs| - 1]) {
      var bs' := bs[..|bs| - 1];
      LastHitSpec(e, bs');
      assert forall k :: 0 <= k < |bs'| ==> bs'[k] == bs[k];
    }
  }

  /** One enemy's turn against the bullets still in flight. */
  function EnemyTurn(e: Enemy, bs: seq<Bullet>): Turn {
    match LastHit(e, bs)
    case None => Turn(bs, Missed, e)
    case Some(j) =>
      var hurt := e.(hp := e.hp - 1);
      Turn(bs[..j] + bs[j + 1..], if hurt.hp <= 0 then Destroyed else Damaged, hurt)
  }

  /**
   On its turn an enemy is missed exactly when no bullet overlaps it, and
   then nothing changes. Otherwise exactly one bullet is consumed, the
   overlapping one of highest index, the other bullets stay in order, the
   enemy loses one hit point, and it is destroyed exactly when its hit
   points drop to zero or below.
   */
  lemma EnemyTurnSpec(e: Enemy, bs: seq<Bullet>)
    ensures EnemyTurn(e, bs).fate == Missed <==> forall k :: 0 <= k < |bs| ==> !BulletHits(e, bs[k])
    ensures EnemyTurn(e, bs).fate == Missed ==> EnemyTurn(e, bs).bullets == bs && EnemyTurn(e, bs).enemy == e
    ensures EnemyTurn(e, bs).fate != Missed ==>
      exists j :: 0 <= j < |bs| && BulletHits(e, bs[j]) &&
        (forall k :: j < k < |bs| ==> !BulletHits(e, bs[k])) &&
        EnemyTurn(e, bs).bullets == bs[..j] + bs[j + 1..]
    ensures EnemyTurn(e, bs).fate != Missed ==> EnemyTurn(e, bs).enemy == e.(hp := e.hp - 1)
    ensures EnemyTurn(e, bs).fate == Destroyed <==> EnemyTurn(e, bs).fate != Missed && e.hp - 1 <= 0
  {
    LastHitSpec(e, bs);
    match LastHit(e, bs)
    case None =>
    case Some(j) =>
      assert EnemyTurn(e, bs).bullets == bs[..j] + bs[j + 1..];
  }

  lemma ResolveStep(es: seq<Enemy>, i: nat, bs: seq<Bullet>)
    requires i < |es|
    ensures Resolve(es[..i + 1], bs) ==
      Outcome(Resolve(es[..i], EnemyTurn(es[i], bs).bullets).enemies + Survivor(EnemyTurn(es[i], bs)),
              Resolve(es[..i], EnemyTurn(es[i], bs).bullets).bullets,
              Resolve(es[..i], EnemyTurn(es[i], bs).bullets).fates + [EnemyTurn(es[i], bs).fate])
  {
    assert es[..i + 1][..i] == es[..i];
  }

  /** The enemy as it stands after its turn, or nothing if it was destroyed. */
  function Survivor(t: Turn): seq<Enemy> {
    if t.fate == Destroyed then [] else [t.enemy]
  }

  /** The whole pass, enemies taken from the highest index down. */
  function Resolve(es: seq<Enemy>, bs: seq<Bullet>): Outcome
    decreases |es|
  {
    if es == [] then Outcome([], bs, [])
    else
      var t := EnemyTurn(es[|es| - 1], bs);
      var r := Resolve(es[..|es| - 1], t.bullets);
      Outcome(r.enemies + Survivor(t), r.bullets, r.fates + [t.fate])
  }

  /**
   The same pass as the original performs it, in place: the enemies from
   index i down take their turns on the current lists, each surviving
   enemy keeping its slot and each destroyed one spliced out.
   */
  function Sweep(es: seq<Enemy>, bs: seq<Bullet>, i: int): Outcome
    requires -1 <= i < |es|
    decreases i + 1
  {
    if i < 0 then Outcome(es, bs, [])
    else
      var t := EnemyTurn(es[i], bs);
      var r := Sweep(es[..i] + Survivor(t) + es[i + 1..], t.bullets, i - 1);
      Outcome(r.enemies, r.bullets, r.fates + [t.fate])
  }

  /** One turn of the sweep, for lists that already show its effect. */
  lemma SweepStep(es: seq<Enemy>, bs: seq<Bullet>, i: nat, es': seq<Enemy>, bs': seq<Bullet>)
    requires i < |es|
    requires es' == es[..i] + Survivor(EnemyTurn(es[i], bs)) + es[i + 1..]
    requires bs' == EnemyTurn(es[i], bs).bullets
    ensures i - 1 < |es'|
    ensures Sweep(es, bs, i) ==
      Outcome(Sweep(es', bs', i - 1).enemies, Sweep(es', bs', i - 1).bullets,
              Sweep(es', bs', i - 1).fates + [EnemyTurn(es[i], bs).fate])
  {}

  /**
   Sweeping from index i leaves the enemies above i where they are and
   resolves the prefix up to i.
   */
  lemma {:induction false} SweepResolves(es: seq<Enemy>, bs: seq<Bullet>, i: int)
    requires -1 <= i < |es|
    ensures Sweep(es, bs, i) ==
      Outcome(Resolve(es[..i + 1], bs).enemies + es[i + 1..],
              Resolve(es[..i + 1], bs).bullets,
              Resolve(es[..i + 1], bs).fates)
    decreases i + 1
  {
    if i < 0 {
      assert es[..0] == [] && es[0..] == es;
    } else {
      var t := EnemyTurn(es[i], bs);
      var es' := es[..i] + Survivor(t) + es[i + 1..];
      SweepStep(es, bs, i, es', t.bullets);
      SweepResolves(es', t.bullets, i - 1);
      SpliceParts(es, i, Survivor(t));
      ResolveStep(es, i, bs);
      var r := Resolve(es[..i], t.bullets);
      assert (r.enemies + Survivor(t)) + es[i + 1..] == r.enemies + es'[i..];
    }
  }

  /** The parts of a list with the element at index i replaced by `mid`. */
  lemma SpliceParts<T>(s: seq<T>, i: nat, mid: seq<T>)
    requires i < |s|
    ensures (s[..i] + mid + s[i + 1..])[..i] == s[..i]
    ensures (s[..i] + mid + s[i + 1..])[i..] == mid + s[i + 1..]
  {
    var s' := s[..i] + mid + s[i + 1..];
    assert s' == s[..i] + (mid + s[i + 1..]);
  }

  /** The in-place sweep over all enemies is the pass. */
  lemma SweepIsResolve(es: seq<Enemy>, bs: seq<Bullet>)
    ensures Sweep(es, bs, |es| - 1) == Resolve(es, bs)
  {
    SweepResolves(es, bs, |es| - 1);
    assert es[..|es|] == es && es[|es|..] == [];
    var r := Resolve(es, bs);
    assert r.enemies + [] == r.enemies;
  }

  /**
   The state of an in-place pass heading for `target`: the enemies from
   index i down have yet to take their turns, and `done` holds the fates
   of those above.
   */
  ghost predicate OnCourse(target: Outcome, es: seq<Enemy>, bs: seq<Bullet>, i: int, done: seq<Fate>) {
    -1 <= i < |es| &&
    target == Outcome(Sweep(es, bs, i).enemies, Sweep(es, bs, i).bullets, Sweep(es, bs, i).fates + done)
  }

  lemma OnCourseStart(es: seq<Enemy>, bs: seq<Bullet>)
    ensures OnCourse(Resolve(es, bs), es, bs, |es| - 1, [])
  {
    SweepIsResolve(es, bs);
    var r := Sweep(es, bs, |es| - 1);
    assert r.fates + [] == r.fates;
  }

  /** The turn of the enemy of index i, done in place, keeps the pass on course. */
  lemma OnCourseStep(target: Outcome, es: seq<Enemy>, bs: seq<Bullet>, i: nat, done: seq<Fate>,
                     es': seq<Enemy>, bs': seq<Bullet>)
    requires OnCourse(target, es, bs, i, done)
    requires es' == es[..i] + Survivor(EnemyTurn(es[i], bs)) + es[i + 1..]
    requires bs' == EnemyTurn(es[i], bs).bullets
    ensures OnCourse(target, es', bs', i - 1, [EnemyTurn(es[i], bs).fate] + done)
  {
    var f := EnemyTurn(es[i], bs).fate;
    SweepStep(es, bs, i, es', bs');
    var r := Sweep(es', bs', i - 1);
    assert (r.fates + [f]) + done == r.fates + ([f] + done);
  }

  lemma OnCourseDone(target: Outcome, es: seq<Enemy>, bs: seq<Bullet>, done: seq<Fate>)
    requires OnCourse(target, es, bs, -1, done)
    ensures target == Outcome(es, bs, done)
  {
    assert [] + done == done;
  }

  /** The number of enemies that were struck by a bullet. */
  function HitCount(fs: seq<Fate>): (n: nat)
    ensures n <= |fs|
    decreases |fs|
  {
    if fs == [] then 0
    else HitCount(fs[..|fs| - 1]) + (if fs[|fs| - 1] == Missed then 0 else 1)
  }

  /** The number of enemies that were destroyed. */
  function KillCount(fs: seq<Fate>): (n: nat)
    ensures n <= HitCount(fs)
    decreases |fs|
  {
    if fs == [] then 0
    else KillCount(fs[..|fs| - 1]) + (if fs[|fs| - 1] == Destroyed then 1 else 0)
  }

  lemma {:induction false} KillCountAppend(a: seq<Fate>, b: seq<Fate>)
    ensures KillCount(a + b) == KillCount(a) + KillCount(b)
    decreases |b|
  {
    if b == [] {
      assert a + b == a;
    } else {
      var b' := b[..|b| - 1];
      assert (a + b)[..|a + b| - 1] == a + b';
      assert (a + b)[|a + b| - 1] == b[|b| - 1];
      KillCountAppend(a, b');
    }
  }

  /**
   What an enemy becomes under its fate: unchanged when missed, one hit
   point down when damaged, gone when destroyed.
   */
  function Damage(es: seq<Enemy>, fs: seq<Fate>): seq<Enemy>
    requires |fs| == |es|
    decreases |es|
  {
    if es == [] then []
    else
      var e := es[|es| - 1];
      Damage(es[..|es| - 1], fs[..|fs| - 1]) +
        match fs[|fs| - 1]
        case Missed => [e]
        case Damaged => [e.(hp := e.hp - 1)]
        case Destroyed => []
  }

  /**
   Each fate agrees with the hit points of its enemy: a struck enemy is
   destroyed exactly when its decremented hit points are at most zero.
   */
  predicate FatesAgree(es: seq<Enemy>, fs: seq<Fate>)
    requires |fs| == |es|
  {
    forall i :: 0 <= i < |es| ==>
      (fs[i] == Destroyed ==> es[i].hp - 1 <= 0) &&
      (fs[i] == Damaged ==> es[i].hp - 1 > 0)
  }

  /**
   Bookkeeping of a pass: each enemy gets one fate, each struck enemy
   consumes exactly one bullet, and each destroyed enemy leaves the list.
   */
  lemma {:induction false} ResolveCounts(es: seq<Enemy>, bs: seq<Bullet>)
    ensures |Resolve(es, bs).fates| == |es|
    ensures |bs| == |Resolve(es, bs).bullets| + HitCount(Resolve(es, bs).fates)
    ensures |es| == |Resolve(es, bs).enemies| + KillCount(Resolve(es, bs).fates)
    decreases |es|
  {
    if es != [] {
      var t := EnemyTurn(es[|es| - 1], bs);
      var r := Resolve(es[..|es| - 1], t.bullets);
      ResolveCounts(es[..|es| - 1], t.bullets);
      var fs := r.fates + [t.fate];
      assert fs[..|fs| - 1] == r.fates;
    }
  }

  /** The pass only deletes bullets; the rest keep their relative order. */
  lemma {:induction false} ResolveBulletsKept(es: seq<Enemy>, bs: seq<Bullet>)
    ensures IsSubseq(Resolve(es, bs).bullets, bs)
    decreases |es|
  {
    if es == [] {
      SubseqRefl(bs);
    } else {
      var t := EnemyTurn(es[|es| - 1], bs);
      EnemyTurnSpec(es[|es| - 1], bs);
      ResolveBulletsKept(es[..|es| - 1], t.bullets);
      if t.fate == Missed {
      } else {
        var j :| 0 <= j < |bs| && t.bullets == bs[..j] + bs[j + 1..];
        SubseqDelete(bs, j);
        SubseqTrans(Resolve(es, bs).bullets, t.bullets, bs);
      }
    }
  }

  /**
   The surviving enemies are exactly the input enemies transformed by their
   fates, in their original order.
   */
  lemma {:induction false} ResolveEnemies(es: seq<Enemy>, bs: seq<Bullet>)
    ensures |Resolve(es, bs).fates| == |es|
    ensures Resolve(es, bs).enemies == Damage(es, Resolve(es, bs).fates)
    decreases |es|
  {
    ResolveCounts(es, bs);
    if es != [] {
      var es' := es[..|es| - 1];
      var e := es[|es| - 1];
      var t := EnemyTurn(e, bs);
      var r := Resolve(es', t.bullets);
      EnemyTurnSpec(e, bs);
      ResolveEnemies(es', t.bullets);
      var fs := r.fates + [t.fate];
      assert fs[..|fs| - 1] == r.fates && fs[|fs| - 1] == t.fate;
      assert Damage(es, fs) == Damage(es', r.fates) + Survivor(t);
    }
  }

  /** A struck enemy is destroyed exactly when its decremented hit points are at most zero. */
  lemma {:induction false} ResolveFatesAgree(es: seq<Enemy>, bs: seq<Bullet>)
    ensures |Resolve(es, bs).fates| == |es|
    ensures FatesAgree(es, Resolve(es, bs).fates)
    decreases |es|
  {
    ResolveCounts(es, bs);
    if es != [] {
      var es' := es[..|es| - 1];
      var e := es[|es| - 1];
      var t := EnemyTurn(e, bs);
      var r := Resolve(es', t.bullets);
      assert Resolve(es, bs).fates == r.fates + [t.fate];
      assert es' + [e] == es;
      EnemyTurnSpec(e, bs);
      hide *;
      ResolveCounts(es', t.bullets);
      ResolveFatesAgree(es', t.bullets);
      FatesAgreeSnoc(es', r.fates, e, t.fate);
    }
  }

  lemma FatesAgreeSnoc(es: seq<Enemy>, fs: seq<Fate>, e: Enemy, f: Fate)
    requires |fs| == |es| && FatesAgree(es, fs)
    requires f == Destroyed ==> e.hp - 1 <= 0
    requires f == Damaged ==> e.hp - 1 > 0
    ensures FatesAgree(es + [e], fs + [f])
  {
    var es2, fs2 := es + [e], fs + [f];
    forall i | 0 <= i < |es2|
      ensures (fs2[i] == Destroyed ==> es2[i].hp - 1 <= 0) && (fs2[i] == Damaged ==> es2[i].hp - 1 > 0)
    {
      if i < |es| {
        assert fs2[i] == fs[i] && es2[i] == es[i];
      }
    }
  }

  /** When no bullet overlaps any enemy, the pass changes nothing. */
  lemma {:induction false} ResolveNoContact(es: seq<Enemy>, bs: seq<Bullet>)
    requires NoContact(es, bs)
    ensures Resolve(es, bs).enemies == es
    ensures Resolve(es, bs).bullets == bs
    ensures HitCount(Resolve(es, bs).fates) == 0
    decreases |es|
  {
    if es != [] {
      var es' := es[..|es| - 1];
      var e := es[|es| - 1];
      NoContactLast(es, bs);
      var r := Resolve(es', bs);
      assert Resolve(es, bs) == Outcome(r.enemies + [e], r.bullets, r.fates + [Missed]);
      var fs := r.fates + [Missed];
      assert HitCount(fs) == HitCount(r.fates) by {
        assert fs[..|fs| - 1] == r.fates;
      }
      assert es == es' + [e];
      hide *;
      ResolveNoContact(es', bs);
    }
  }

  /** No bullet overlaps any enemy. */
  predicate NoContact(es: seq<Enemy>, bs: seq<Bullet>) {
    forall i, k :: 0 <= i < |es| && 0 <= k < |bs| ==> !BulletHits(es[i], bs[k])
  }

  /** Without contact the last enemy is missed, and the others are still out of contact. */
  lemma NoContactLast(es: seq<Enemy>, bs: seq<Bullet>)
    requires es != [] && NoContact(es, bs)
    ensures EnemyTurn(es[|es| - 1], bs) == Turn(bs, Missed, es[|es| - 1])
    ensures NoContact(es[..|es| - 1], bs)
  {
    var e := es[|es| - 1];
    assert forall k :: 0 <= k < |bs| ==> !BulletHits(e, bs[k]);
    LastHitSpec(e, bs);
  }

  /** An enemy with hit points left. */
  predicate Alive(e: Enemy) {
    e.hp >= 1
  }

  /**
   A pass never resurrects, moves, resizes or heals an enemy: if every
   enemy entering it is alive, every enemy leaving it is alive, and each
   survivor is an input enemy with at most as many hit points.
   */
  lemma {:induction false} ResolveKeepsAlive(es: seq<Enemy>, bs: seq<Bullet>)
    requires forall e :: e in es ==> Alive(e)
    ensures forall e' :: e' in Resolve(es, bs).enemies ==>
      Alive(e') && exists e :: e in es && e' == e.(hp := e'.hp) && e'.hp <= e.hp
    decreases |es|
  {
    if es != [] {
      var es' := es[..|es| - 1];
      var e := es[|es| - 1];
      var t := EnemyTurn(e, bs);
      EnemyTurnSpec(e, bs);
      assert forall x :: x in es' ==> x in es;
      ResolveKeepsAlive(es', t.bullets);
      forall e' | e' in Survivor(t)
        ensures Alive(e') && exists x :: x in es && e' == x.(hp := e'.hp) && e'.hp <= x.hp
      {
        assert e' == t.enemy;
        assert e' == e.(hp := e'.hp);
      }
    }
  }
}
