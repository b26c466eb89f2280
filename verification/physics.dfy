/**
 * The ball integrator (`updateBall`, App.tsx:140-162): one tick moves the
 * ball by its velocity, decays the velocity by friction and, on each axis
 * separately, bounces the ball off a wall it has reached.
 */
module Physics {
  import opened Geometry

  datatype Ball = Ball(pos: Vec, vel: Vec)

  /** Per-tick multiplicative decay of the velocity. */
  const Friction: real := 0.98

  /** A wall bounce multiplies the velocity component by `-Restitution`. */
  const Restitution: real := 0.8

  const BallRadius: real := BallSize / 2.0

  /** The ball at rest in the centre of the field (`resetBall`). */
  function CentredBall(f: Field): (b: Ball)
    ensures b.vel == Zero
    ensures b.pos.x == f.width - b.pos.x && b.pos.y == f.height - b.pos.y
    ensures f.width >= BallSize && f.height >= BallSize ==> InField(f, b.pos)
  {
    Ball(Centre(f), Zero)
  }

  /** The position and velocity of the ball along one axis. */
  datatype Motion = Motion(pos: real, vel: real)

  /** True when coordinate `p` on an axis of length `size` touches or passes a wall. */
  predicate AtWall(size: real, p: real) {
    p <= BallRadius || p >= size - BallRadius
  }

  /** The range the ball's centre may occupy on an axis of length `size`. */
  predicate OnAxis(size: real, p: real) {
    BallRadius <= p <= size - BallRadius
  }

  predicate InField(f: Field, p: Vec) {
    OnAxis(f.width, p.x) && OnAxis(f.height, p.y)
  }

  /**
   * One axis of the integrator. Away from the walls the ball drifts by its
   * velocity and keeps 98% of it; at a wall it is snapped onto the wall and
   * the velocity is reversed, keeping 0.98 * 0.8 = 78.4% of it.
   */
  function StepAxis(size: real, m: Motion): (r: Motion)
    ensures size >= BallSize ==> OnAxis(size, r.pos)
    ensures r.vel * r.vel <= m.vel * m.vel
    ensures !AtWall(size, m.pos + m.vel) ==> r == Motion(m.pos + m.vel, Friction * m.vel)
    ensures AtWall(size, m.pos + m.vel) ==> r.vel == -0.784 * m.vel
    ensures m.pos + m.vel <= BallRadius ==> r.pos == BallRadius
    ensures BallRadius < m.pos + m.vel && m.pos + m.vel >= size - BallRadius ==> r.pos == size - BallRadius
  {
    var p := m.pos + m.vel;
    var v := m.vel * Friction;
    if AtWall(size, p) then
      Motion(if p <= BallRadius then BallRadius else size - BallRadius, v * -Restitution)
    else
      Motion(p, v)
  }

  /** One tick of the integrator; the two axes are handled independently. */
  function UpdateBall(f: Field, b: Ball): (r: Ball)
    ensures f.width >= BallSize && f.height >= BallSize ==> InField(f, r.pos)
    ensures Norm2(r.vel) <= Norm2(b.vel)
    ensures b.vel == Zero && InField(f, b.pos) ==> r == b
  {
    var mx := StepAxis(f.width, Motion(b.pos.x, b.vel.x));
    var my := StepAxis(f.height, Motion(b.pos.y, b.vel.y));
    Ball(Vec(mx.pos, my.pos), Vec(mx.vel, my.vel))
  }

  /** A ball moving left into the wall of a 400 x 300 field bounces back at 3.92. */
  lemma WallBounceExample()
    ensures UpdateBall(Field(400.0, 300.0), Ball(Vec(10.0, 150.0), Vec(-5.0, 0.0)))
         == Ball(Vec(10.0, 150.0), Vec(3.92, 0.0))
  {
  }

  /** `n` ticks of the integrator with no player touching the ball. */
  function Roll(f: Field, b: Ball, n: nat): Ball
    decreases n
  {
    if n == 0 then b else Roll(f, UpdateBall(f, b), n - 1)
  }

  /**
   * A free-rolling ball stays in the field after any positive number of
   * ticks and never gains speed.
   */
  lemma {:induction false} RollStaysInFieldAndSlows(f: Field, b: Ball, n: nat)
    requires f.width >= BallSize && f.height >= BallSize
    ensures n > 0 ==> InField(f, Roll(f, b, n).pos)
    ensures Norm2(Roll(f, b, n).vel) <= Norm2(b.vel)
    decreases n
  {
    if n > 0 {
      RollStaysInFieldAndSlows(f, UpdateBall(f, b), n - 1);
    }
  }
}
