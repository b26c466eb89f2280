/**
 * The collision rule (`checkCollisions`, App.tsx:164-185). A player whose
 * centre is closer to the ball's centre than the sum of the two radii kicks
 * the ball: its velocity is replaced by a push of magnitude 8 pointing from
 * the player to the ball. Player 1 is checked first and player 2 second, so
 * player 2's push wins when both touch the ball.
 *
 * `Math.sqrt`, `Math.atan2`, `Math.cos` and `Math.sin` have no counterpart on
 * `real`; the distance enters as a parameter `d` tied to the separation by
 * `d * d == dx * dx + dy * dy`, and the push is given exactly as
 * (8 cos θ, 8 sin θ) = (8 dx / d, 8 dy / d).
 */
module Collisions {
  import opened Geometry
  import opened Physics

  /** Magnitude of the push a player gives the ball. */
  const KickForce: real := 8.0

  /** Sum of the player and ball radii. */
  const ContactDistance: real := (PlayerSize + BallSize) / 2.0

  /** `d` is the Euclidean length of (dx, dy), which `Math.sqrt` computes. */
  predicate IsLength(dx: real, dy: real, d: real) {
    d >= 0.0 && d * d == dx * dx + dy * dy
  }

  /** The ball's centre lies within contact distance of the player's centre. */
  predicate Overlaps(ball: Vec, player: Vec)
    ensures Overlaps(ball, player) ==>
              Abs(ball.x - player.x) < ContactDistance && Abs(ball.y - player.y) < ContactDistance
    ensures Abs(ball.x - player.x) + Abs(ball.y - player.y) < ContactDistance ==> Overlaps(ball, player)
  {
    var dx := ball.x - player.x;
    var dy := ball.y - player.y;
    OverlapBounds(dx, dy);
    dx * dx + dy * dy < ContactDistance * ContactDistance
  }

  /** The contact disc lies inside the square of half-side 25 and contains the diamond of radius 25. */
  lemma OverlapBounds(dx: real, dy: real)
    ensures dx * dx + dy * dy < ContactDistance * ContactDistance ==>
              Abs(dx) < ContactDistance && Abs(dy) < ContactDistance
    ensures Abs(dx) + Abs(dy) < ContactDistance ==> dx * dx + dy * dy < ContactDistance * ContactDistance
  {
    var ax, ay := Abs(dx), Abs(dy);
    assert ax * ax == dx * dx && ay * ay == dy * dy;
    ProductNonNegative(ax, ay);
    assert (ax + ay) * (ax + ay) == dx * dx + dy * dy + 2.0 * (ax * ay);
    LengthBelow(ax, ContactDistance);
    LengthBelow(ay, ContactDistance);
    LengthBelow(ax + ay, ContactDistance);
  }

  lemma UnitDirection(dx: real, dy: real, d: real)
    requires IsLength(dx, dy, d) && d > 0.0
    ensures (dx / d) * (dx / d) + (dy / d) * (dy / d) == 1.0
    ensures (dx / d) * dx + (dy / d) * dy == d
  {
    var ux, uy := dx / d, dy / d;
    assert ux * d == dx && uy * d == dy;
    assert (ux * ux + uy * uy) * (d * d) == dx * dx + dy * dy;
    assert (ux * ux + uy * uy - 1.0) * (d * d) == 0.0;
    assert (ux * dx + uy * dy) * d == d * d;
  }

  lemma ProductNegative(a: real, b: real)
    requires a < 0.0 && b > 0.0
    ensures a * b < 0.0
  {
  }

  lemma ProductNonNegative(a: real, b: real)
    requires a >= 0.0 && b >= 0.0
    ensures a * b >= 0.0
  {
    if a > 0.0 && b > 0.0 {
      ProductNegative(-a, b);
    }
  }

  /** Comparing two non-negative distances is comparing their squares. */
  lemma LengthBelow(d: real, bound: real)
    requires d >= 0.0 && bound >= 0.0
    ensures d < bound <==> d * d < bound * bound
  {
    assert (d - bound) * (d + bound) == d * d - bound * bound;
    if d < bound {
      ProductNegative(d - bound, d + bound);
    } else {
      assert (d - bound) * (d + bound) >= 0.0;
    }
  }

  /**
   * The push given to the ball: (cos θ, sin θ) scaled by 8 for
   * θ = atan2(dy, dx). When the centres coincide atan2(0, 0) is 0, so the
   * push points along the positive x axis.
   */
  function Kick(dx: real, dy: real, d: real): (v: Vec)
    requires IsLength(dx, dy, d)
    ensures Norm2(v) == KickForce * KickForce
    ensures d > 0.0 ==> v.x * dy == v.y * dx
    ensures d > 0.0 ==> v.x * dx + v.y * dy == KickForce * d
    ensures d == 0.0 ==> v == Vec(KickForce, 0.0)
  {
    if d == 0.0 then
      Vec(KickForce, 0.0)
    else
      UnitDirection(dx, dy, d);
      Vec(KickForce * (dx / d), KickForce * (dy / d))
  }

  /** One call of `checkPlayerCollision`: the ball's velocity after meeting one player. */
  function CollideWith(b: Ball, player: Vec, d: real): (r: Ball)
    requires IsLength(b.pos.x - player.x, b.pos.y - player.y, d)
    ensures r.pos == b.pos
    ensures Overlaps(b.pos, player) ==> r.vel == Kick(b.pos.x - player.x, b.pos.y - player.y, d)
    ensures !Overlaps(b.pos, player) ==> r == b
  {
    LengthBelow(d, ContactDistance);
    if d < ContactDistance then
      Ball(b.pos, Kick(b.pos.x - player.x, b.pos.y - player.y, d))
    else
      b
  }

  /**
   * `checkCollisions`: player 1 then player 2. `d1` and `d2` are the
   * distances from each player to the ball; a kick does not move the ball,
   * so both are measured from the same ball position.
   */
  function CheckCollisions(b: Ball, p1: Vec, p2: Vec, d1: real, d2: real): (r: Ball)
    requires IsLength(b.pos.x - p1.x, b.pos.y - p1.y, d1)
    requires IsLength(b.pos.x - p2.x, b.pos.y - p2.y, d2)
    ensures r.pos == b.pos
    ensures Overlaps(b.pos, p2) ==> r.vel == Kick(b.pos.x - p2.x, b.pos.y - p2.y, d2)
    ensures !Overlaps(b.pos, p2) && Overlaps(b.pos, p1) ==> r.vel == Kick(b.pos.x - p1.x, b.pos.y - p1.y, d1)
    ensures !Overlaps(b.pos, p1) && !Overlaps(b.pos, p2) ==> r == b
    ensures Norm2(r.vel) == Norm2(b.vel) || Norm2(r.vel) == KickForce * KickForce
  {
    var afterP1 := CollideWith(b, p1, d1);
    CollideWith(afterP1, p2, d2)
  }

  /** A kick overwrites the ball's velocity: what the ball did before is forgotten. */
  lemma KickIgnoresPriorVelocity(b: Ball, b': Ball, p1: Vec, p2: Vec, d1: real, d2: real)
    requires b.pos == b'.pos
    requires IsLength(b.pos.x - p1.x, b.pos.y - p1.y, d1)
    requires IsLength(b.pos.x - p2.x, b.pos.y - p2.y, d2)
    requires Overlaps(b.pos, p1) || Overlaps(b.pos, p2)
    ensures CheckCollisions(b, p1, p2, d1, d2) == CheckCollisions(b', p1, p2, d1, d2)
  {
  }

  /** Contact example: centres 40 apart do not touch, centres 20 apart do. */
  lemma ContactExample(ball: Vec)
    ensures !Overlaps(ball, Vec(ball.x - 40.0, ball.y))
    ensures Overlaps(ball, Vec(ball.x - 20.0, ball.y))
    ensures CollideWith(Ball(ball, Zero), Vec(ball.x - 20.0, ball.y), 20.0).vel == Vec(KickForce, 0.0)
  {
  }
}
