/**
 The pure rules of a session: the pointer clamp and the high-score update.
 */
module Session {
  import opened Entities

  function Max(a: real, b: real): real { if a < b then b else a }
  function Min(a: real, b: real): real { if a < b then a else b }

  /**
   A pointer coordinate on an axis of length `extent`, pulled back so that
   the player's circle stays inside the field.
   */
  function Clamp(v: real, extent: real): (r: real)
    ensures PlayerRadius <= extent - PlayerRadius ==> PlayerRadius <= r <= extent - PlayerRadius
    ensures PlayerRadius <= v <= extent - PlayerRadius ==> r == v
    ensures v < PlayerRadius ==> r == PlayerRadius
    ensures PlayerRadius <= extent - PlayerRadius < v ==> r == extent - PlayerRadius
  {
    Max(PlayerRadius, Min(extent - PlayerRadius, v))
  }

  /** Clamping an already clamped coordinate changes nothing. */
  lemma ClampIdempotent(v: real, extent: real)
    requires PlayerRadius <= extent - PlayerRadius
    ensures Clamp(Clamp(v, extent), extent) == Clamp(v, extent)
  {}

  /** The player's centre keeps its radius clear of every edge of the field. */
  predicate InField(p: Player) {
    PlayerRadius <= p.x <= Width - PlayerRadius &&
    PlayerRadius <= p.y <= Height - PlayerRadius
  }

  /** Where the pointer at field coordinates (x, y) puts the player. */
  function PointerTarget(p: Player, x: real, y: real): (q: Player)
    ensures InField(q) && q.r == p.r
    ensures PlayerRadius <= x <= Width - PlayerRadius ==> q.x == x
    ensures PlayerRadius <= y <= Height - PlayerRadius ==> q.y == y
  {
    p.(x := Clamp(x, Width), y := Clamp(y, Height))
  }

  /**
   The high score after a session that ended with `score`: the larger of
   the previous high score and the score rounded down.
   */
  function NextHighScore(prev: int, score: real): (r: int)
    ensures r >= prev && r >= score.Floor
    ensures r == prev || r == score.Floor
  {
    if prev < score.Floor then score.Floor else prev
  }

  /** The high score never decreases and settles after one update. */
  lemma NextHighScoreStable(prev: int, score: real)
    ensures NextHighScore(NextHighScore(prev, score), score) == NextHighScore(prev, score)
    ensures score < (prev as real) + 1.0 ==> NextHighScore(prev, score) == prev
  {}
}
