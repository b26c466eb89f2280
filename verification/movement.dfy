/**
 * Player movement: the clamp of `movePlayer` (App.tsx:215-225) and the
 * key-intent reducer `updatePlayerMovement` (App.tsx:227-255). Player 1
 * steers with w/a/s/d, player 2 with the arrow keys; each held key moves
 * the player `PlayerSpeed` along one axis, and the target is clamped so the
 * player's disc stays inside the field. Key names are the lower-cased
 * `KeyboardEvent.key` values the game keeps in its set of held keys.
 */
module Movement {
  import opened Geometry

  /** Closest distance the centre of a player may come to a wall. */
  const Margin: real := PlayerSize / 2.0

  /** `Math.max(lo, Math.min(hi, v))`. */
  function Clamp(lo: real, hi: real, v: real): (r: real)
    ensures lo <= hi ==> lo <= r <= hi
    ensures lo <= v <= hi ==> r == v
    ensures r == v || r == lo || r == hi
  {
    Max(lo, Min(hi, v))
  }

  /** Within an interval, the clamp picks the point nearest to `v`. */
  lemma ClampIsNearest(lo: real, hi: real, v: real, q: real)
    requires lo <= q <= hi
    ensures Abs(Clamp(lo, hi, v) - v) <= Abs(q - v)
  {
  }

  /** The positions the centre of a player may occupy. */
  predicate InPlayerArea(f: Field, p: Vec) {
    Margin <= p.x <= f.width - Margin && Margin <= p.y <= f.height - Margin
  }

  /** `movePlayer`: the position a player ends up at when sent to `target`. */
  function MovePlayer(f: Field, target: Vec): (r: Vec)
    ensures f.width >= PlayerSize && f.height >= PlayerSize ==> InPlayerArea(f, r)
    ensures InPlayerArea(f, target) ==> r == target
  {
    Vec(Clamp(Margin, f.width - Margin, target.x), Clamp(Margin, f.height - Margin, target.y))
  }

  /** Clamping twice is clamping once, whatever the size of the field. */
  lemma MovePlayerIdempotent(f: Field, target: Vec)
    ensures MovePlayer(f, MovePlayer(f, target)) == MovePlayer(f, target)
  {
  }

  /** The four key names that steer one player. */
  datatype Controls = Controls(up: string, left: string, down: string, right: string)

  const Wasd: Controls := Controls("w", "a", "s", "d")
  const Arrows: Controls := Controls("arrowup", "arrowleft", "arrowdown", "arrowright")

  function ControlKeys(c: Controls): set<string> {
    {c.up, c.left, c.down, c.right}
  }

  /** The unclamped target: the four key tests applied one after the other. */
  function Target(pos: Vec, keys: set<string>, c: Controls): Vec {
    var y1 := if c.up in keys then pos.y - PlayerSpeed else pos.y;
    var x1 := if c.left in keys then pos.x - PlayerSpeed else pos.x;
    var y2 := if c.down in keys then y1 + PlayerSpeed else y1;
    var x2 := if c.right in keys then x1 + PlayerSpeed else x1;
    Vec(x2, y2)
  }

  /** The displacement one axis receives from its two opposite keys. */
  function Pull(keys: set<string>, minus: string, plus: string): real {
    (if plus in keys then PlayerSpeed else 0.0) - (if minus in keys then PlayerSpeed else 0.0)
  }

  /** The net displacement the held keys ask for. */
  function NetDisplacement(keys: set<string>, c: Controls): Vec {
    Vec(Pull(keys, c.left, c.right), Pull(keys, c.up, c.down))
  }

  /**
   * One player's half of `updatePlayerMovement`. Nothing moves before the
   * game has started; a player is only sent through the clamp when the
   * keys change its position.
   */
  function Steer(f: Field, started: bool, keys: set<string>, c: Controls, pos: Vec): (r: Vec)
    ensures !started ==> r == pos
    ensures NetDisplacement(keys, c) == Zero ==> r == pos
    ensures started && NetDisplacement(keys, c) != Zero ==>
              r == MovePlayer(f, Vec(pos.x + NetDisplacement(keys, c).x, pos.y + NetDisplacement(keys, c).y))
    ensures InPlayerArea(f, pos) && f.width >= PlayerSize && f.height >= PlayerSize ==> InPlayerArea(f, r)
  {
    if !started then
      pos
    else
      var t := Target(pos, keys, c);
      if t.x != pos.x || t.y != pos.y then MovePlayer(f, t) else pos
  }

  /** Only the player's own four keys matter: every other held key is ignored. */
  lemma SteerIgnoresOtherKeys(f: Field, started: bool, keys: set<string>, c: Controls, pos: Vec)
    ensures Steer(f, started, keys, c, pos) == Steer(f, started, keys * ControlKeys(c), c, pos)
  {
    assert NetDisplacement(keys, c) == NetDisplacement(keys * ControlKeys(c), c);
  }

  /** Holding both keys of an axis is the same as holding neither. */
  lemma OppositeKeysCancel(f: Field, started: bool, keys: set<string>, c: Controls, pos: Vec)
    requires c.left != c.right && c.left != c.up && c.left != c.down
    requires c.right != c.up && c.right != c.down
    requires c.left in keys && c.right in keys
    ensures Steer(f, started, keys, c, pos) == Steer(f, started, keys - {c.left, c.right}, c, pos)
  {
    assert NetDisplacement(keys, c) == NetDisplacement(keys - {c.left, c.right}, c);
  }

  /** `updatePlayerMovement`: player 1 on w/a/s/d, player 2 on the arrow keys. */
  function UpdatePlayerMovement(f: Field, started: bool, keys: set<string>, p1: Vec, p2: Vec): (r: (Vec, Vec))
    ensures r.0 == Steer(f, started, keys * ControlKeys(Wasd), Wasd, p1)
    ensures r.1 == Steer(f, started, keys * ControlKeys(Arrows), Arrows, p2)
  {
    SteerIgnoresOtherKeys(f, started, keys, Wasd, p1);
    SteerIgnoresOtherKeys(f, started, keys, Arrows, p2);
    (Steer(f, started, keys, Wasd, p1), Steer(f, started, keys, Arrows, p2))
  }

  /** A single held `w` moves player 1 up by exactly 5 when there is room. */
  lemma SingleKeyMovesFive(f: Field, p1: Vec, p2: Vec)
    requires InPlayerArea(f, p1) && p1.y - PlayerSpeed >= Margin
    ensures UpdatePlayerMovement(f, true, {"w"}, p1, p2).0 == Vec(p1.x, p1.y - PlayerSpeed)
  {
    assert {"w"} * ControlKeys(Wasd) == {"w"};
  }
}
