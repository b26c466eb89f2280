/**
 * Shared vocabulary of the two-player soccer game: plane vectors, the
 * rectangular field and the fixed sizes of the game (App.tsx:31-36, 64).
 *
 * Coordinates are `real`: the game's JavaScript numbers are modelled as exact
 * reals, so rounding of IEEE-754 doubles is not part of this model.
 */
module Geometry {

  /** A point or a velocity; the game uses one `Position` record for both. */
  datatype Vec = Vec(x: real, y: real)

  const Zero: Vec := Vec(0.0, 0.0)

  const GoalWidth: real := 100.0
  const GoalHeight: real := 60.0
  const PlayerSize: real := 30.0
  const BallSize: real := 20.0

  /** Displacement of a player per tick while a movement key is held. */
  const PlayerSpeed: real := 5.0

  /** The play area. Its size is read from the screen once at start-up. */
  datatype Field = Field(width: real, height: real)

  /** FIELD_WIDTH and FIELD_HEIGHT as derived from the window size. */
  function FieldForScreen(screenWidth: real, screenHeight: real): (f: Field)
    ensures f.width >= PlayerSize && f.height >= PlayerSize <==> screenWidth >= 70.0 && screenHeight >= 280.0
    ensures f.width >= 2.0 * GoalWidth <==> screenWidth >= 240.0
  {
    Field(screenWidth - 40.0, screenHeight - 250.0)
  }

  function Centre(f: Field): Vec {
    Vec(f.width / 2.0, f.height / 2.0)
  }

  /** `Math.min` and `Math.max` on two numbers. */
  function Min(a: real, b: real): real {
    if a <= b then a else b
  }

  function Max(a: real, b: real): real {
    if a >= b then a else b
  }

  function Abs(a: real): real {
    if a < 0.0 then -a else a
  }

  /** The squared length of a vector. */
  function Norm2(v: Vec): real {
    v.x * v.x + v.y * v.y
  }
}
