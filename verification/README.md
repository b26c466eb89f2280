# Two-player soccer: a Dafny model of the game simulation

The game is a single React Native component, `App.tsx`. Two players push a
ball around a rectangular field, and the first player to score two goals
wins. This project models the component's simulation logic as pure
functions over `real`:

- the ball integrator `updateBall`: drift, friction 0.98, and wall bounces with restitution 0.8;
- the collision rule `checkCollisions`: a kick of magnitude 8 directed from the player to the ball;
- the goal detector `checkGoals` with `resetBall`;
- the player clamp `movePlayer`;
- the key-intent reducer `updatePlayerMovement`: w/a/s/d for player 1 and the arrow keys for player 2;
- `startGame`, `resetGame` and the win check;
- the loop guard `gameStarted && !winner`, and the buttons offered in each phase.

The field size comes from the screen, so it is a parameter (`Field`). All
other sizes are the game's constants: goal 100 x 60, player 30, ball 20,
player speed 5.

Modules follow the component's parts:

- `Geometry` (geometry.dfy): vectors, the field, the constants.
- `Physics` (physics.dfy): the ball and `UpdateBall`.
- `Collisions` (collision.dfy): contact detection and the kick.
- `Goals` (goals.dfy): goal regions and `CheckGoals`.
- `Movement` (movement.dfy): clamping and key steering.
- `Match` (match.dfy): the game state, the commands, one tick, event sequences, and the interval loop.

`Math.sqrt`, `Math.atan2`, `Math.cos` and `Math.sin` cannot be computed on
`real`, so they are treated as foreign calls. Where the game measures a
distance, the model receives a number `d` together with the requirement
`d * d == dx * dx + dy * dy`. A whole tick receives a `norm` function that
must satisfy this requirement for every vector. The kick is then exactly
`(8 dx / d, 8 dy / d)`, which is `(8 cos θ, 8 sin θ)` for `θ = atan2(dy, dx)`.
When the centres coincide it is `(8, 0)`, because `atan2(0, 0) = 0`.

A tick runs four steps in sequence, as at App.tsx:126-129: integrate,
collide, score, move. Each step works on the state the previous step left.
This is an idealisation: in the component, the collision and goal checks read
the ball and player values captured in the render that scheduled the interval.
The win check is a React effect that fires when a score changes. Scores change
only in a tick, so the model applies the win check after each tick. `startGame`
and `resetGame` set both scores to 0, and the win check does nothing at 0 : 0.

The invariant `Match.Inv` needs a field at least 230 wide and 30 high (`Match.Playable`).
The home positions `W/2 ∓ 100` are never clamped. On a narrower field they
would put a player's centre less than 15 from a wall.

Two behaviours of the code that a reader might not expect:

- `checkGoals` makes two independent tests on the ball position read before
  either reset. On a field narrower than 200 a ball can lie in both goal
  regions, and then both players score in the same tick. A wider field
  credits at most one goal per tick.
- The restart button shown after a win calls `resetGame`
  (App.tsx:365). It returns the game to Idle with the players at home. It
  does not start a new match.

## Model

| member | source | states |
|---|---|---|
| `Geometry.FieldForScreen` | App.tsx:31-32 | The field is the window less 40 in width and 250 in height: it holds a player (30 x 30) exactly when the window is at least 70 x 280, and it is at least two goals (200) wide exactly when the window is at least 240 wide. |
| `Physics.CentredBall` | App.tsx:208-213 | The reset ball is at rest, equidistant from opposite walls on both axes, and inside the field when the field is at least 20 x 20. |
| `Physics.StepAxis` | App.tsx:142-155 | On one axis the ball ends inside the field when the axis is at least one ball wide. A velocity component never grows in magnitude. Off the walls the coordinate moves by the velocity and the velocity becomes 0.98 of itself. At a wall the velocity becomes -0.784 of itself. The coordinate is snapped onto the wall it reached: to 10 when the new coordinate is at most 10, otherwise to `size - 10`. |
| `Physics.UpdateBall` | App.tsx:140-162 | After one tick the ball lies inside the field when the field is at least 20 x 20. Its speed never increases. A ball at rest inside the field stays where it is. |
| `Physics.WallBounceExample` | App.tsx:142-155 | On a 400 x 300 field, a ball at (10, 150) moving at (-5, 0) stays at (10, 150) and leaves at (3.92, 0). |
| `Physics.RollStaysInFieldAndSlows` | App.tsx:140-162 | Any positive number of ticks with no kicks leaves the ball inside the field and no faster than it started. |
| `Collisions.LengthBelow` | App.tsx:168-170 | For non-negative numbers, `distance < 25` holds exactly when the squared distance is below 625. |
| `Collisions.Overlaps` | App.tsx:166-170 | A touching ball lies within 25 of the player on each axis, and a ball whose x- and y-offsets sum to less than 25 touches. |
| `Collisions.Kick` | App.tsx:171-179 | The kick has magnitude 8. For distinct centres it is parallel to the separation (dx, dy), and its projection on the separation is 8 times the distance, so it points from the player to the ball. When the centres coincide the kick is (8, 0). |
| `Collisions.CollideWith` | App.tsx:165-180 | A player touches the ball exactly when dx² + dy² < 25². A touch replaces the ball's velocity by the kick, and the position is kept. Otherwise the ball is untouched. |
| `Collisions.CheckCollisions` | App.tsx:164-185 | Player 2's kick wins when both players touch the ball. Player 1's kick applies when only player 1 touches. With no touch the ball is unchanged. The ball never moves, and its speed is either kept or exactly 8. |
| `Collisions.KickIgnoresPriorVelocity` | App.tsx:171-179 | When a player touches the ball, the resulting ball does not depend on the velocity it had before. |
| `Collisions.ContactExample` | App.tsx:166-170 | Centres 40 apart do not touch and centres 20 apart do. A ball 20 to the right of a player is kicked with (8, 0). |
| `Goals.CheckGoals` | App.tsx:187-213 | Player 1 gains exactly one point iff the ball is past `W - 100` inside the open band `((H-60)/2, (H+60)/2)`. Player 2 gains exactly one point iff the ball is before `x = 100` inside that band. Otherwise a score is unchanged. A goal leaves the ball at the centre at rest, and without a goal the ball is unchanged. |
| `Goals.GoalsOverlapIffNarrow` | App.tsx:192-205 | Some ball position lies in both goal regions iff the field is narrower than 200. |
| `Goals.AtMostOneGoal` | App.tsx:192-205 | On a field at least 200 wide, at most one point is credited per check. |
| `Goals.RightGoalExample` | App.tsx:192-197 | A ball at (W-1, H/2) on a field at least 101 wide gives player 1 exactly one point and player 2 none, and the ball returns to (W/2, H/2) with velocity (0, 0). |
| `Movement.Clamp` | App.tsx:217-218 | The clamped value lies in [lo, hi] when lo ≤ hi. A value already inside is returned unchanged. The result is the value itself or one of the two bounds. |
| `Movement.ClampIsNearest` | App.tsx:217-218 | The clamped value is the point of [lo, hi] nearest to the input. |
| `Movement.MovePlayer` | App.tsx:215-225 | The new position lies in [15, W-15] × [15, H-15] when the field is at least 30 x 30. A target already in that range is returned unchanged. |
| `Movement.MovePlayerIdempotent` | App.tsx:217-218 | Clamping twice equals clamping once, on any field. |
| `Movement.Steer` | App.tsx:227-241 | A player does not move before the game starts, and does not move when the held keys cancel out. Otherwise the player is clamped to its position plus the net key displacement, 5 per key. A player inside the area stays inside. |
| `Movement.SteerIgnoresOtherKeys` | App.tsx:230-254 | Keys other than the player's own four have no effect on that player. |
| `Movement.OppositeKeysCancel` | App.tsx:234-237 | Holding left and right together is the same as holding neither. |
| `Movement.UpdatePlayerMovement` | App.tsx:227-255 | Player 1 responds only to w/a/s/d, and player 2 only to the arrow keys. |
| `Movement.SingleKeyMovesFive` | App.tsx:234 | Holding only `w` moves player 1 up by exactly 5 when there is room. |
| `Match.PhaseOf` | App.tsx:58-59 | The game is Playing exactly when `gameStarted && !winner`, Idle exactly when `!gameStarted && !winner`, and Finished exactly when there is a winner. |
| `Match.Initial` | App.tsx:39-59 | The initial game is Idle with both scores 0. The ball is at rest in the centre. The players stand on the centre line, 200 apart and symmetric about the centre, and inside the player area on a playable field. |
| `Match.PlayableScreens` | App.tsx:31-32 | The field is playable exactly when the window is at least 270 x 280. |
| `Match.Start` | App.tsx:257-263 | After Start the game is Playing, both scores are 0 and the ball is at the centre at rest. Player positions are unchanged. |
| `Match.Reset` | App.tsx:265-271 | After Reset the game is the initial state: Idle, scores 0, players at `(W/2 ∓ 100, H/2)`, and the ball at the centre at rest. |
| `Match.ResetIdempotent` | App.tsx:265-271 | Resetting twice equals resetting once. |
| `Match.WinCheck` | App.tsx:274-282 | With score 1 ≥ 2, player 1 wins. Otherwise, with score 2 ≥ 2, player 2 wins. Either way the game stops. With both scores below 2 nothing changes. Players and ball are never touched. |
| `Match.Advance` | App.tsx:125-130 | One tick in the loop's order. The ball is integrated first. When the integrated ball lies in a goal, it returns to the centre at rest. Otherwise it keeps the integrated position. Its velocity is then player 2's kick if player 2 touches it, player 1's kick if only player 1 touches it, and unchanged if nobody does; contact is measured against the players' positions before they move. Each score rises by exactly one iff the integrated ball lies in that player's goal, and otherwise stays. On a field at least 200 wide at most one score rises. Each player is steered by its own keys from its old position. The ball ends inside the field, its speed does not grow beyond the larger of its old speed and 8, and players stay in their area. |
| `Match.Offered` | App.tsx:355-375 | The start button is offered exactly when `!gameStarted && !winner`, the reset button exactly when `gameStarted && !winner`, and the restart button exactly when there is a winner. Ticks and drags are always delivered. |
| `Match.Step` | App.tsx:122-138 | A button that is not offered does nothing: Start only when Idle, Reset only while Playing, Restart only when Finished. Start gives Playing with scores 0, players in place and the ball at the centre at rest, and Reset and Restart give the initial state. A tick outside Playing does nothing. A tick while Playing leaves the players and ball as `Advance` leaves them and then applies the win check: player 1 wins at 2, otherwise player 2 wins at 2, and either win stops the game; below 2 the game stays Playing. A drag before the start does nothing; afterwards it moves only the dragged player, clamped into its area, and changes nothing else. Events other than the commands raise each score by 0 or 1. |
| `Match.InitialInv` | App.tsx:39-59 | The initial state satisfies the invariant on a playable field. |
| `Match.StepInv` | App.tsx:122-138 | Every event preserves the invariant on a playable field. The invariant covers: ball and players inside the field, ball speed at most 8, a winner only when stopped, and a winner exactly when that player has 2 and the other fewer. |
| `Match.RunInv` | App.tsx:122-138 | Every sequence of events preserves the invariant. |
| `Match.StepPhase` | App.tsx:355-375 | Phases change only Idle→Playing, Playing→Finished, Playing→Idle and Finished→Idle, and only Start enters Playing. |
| `Match.FinishedIsFrozen` | App.tsx:124 | Once there is a winner, every event except the restart button leaves the game unchanged. |
| `Match.SecondGoalWins` | App.tsx:274-282 | Player 1 holds one point, and the ball rolls into the right goal. The match is then Finished, with player 1 the winner at 2 points. |
| `Match.ScoresMonotone` | App.tsx:187-206 | With no start, reset or restart in between, scores never decrease. |
| `Match.RunInterval` | App.tsx:122-138 | The interval runs one tick per key sample while the game is Playing, and stops for good once it is not. The result equals running those ticks as events, satisfies the invariant, and has scores no lower than before. |

## Left out

- Rendering, styles, colours and the instruction text (App.tsx:284-594) are presentation only.
- `Dimensions.get` (App.tsx:12) reads the window. The field size is a parameter instead.
- React state semantics are not modelled: batching of `useState` updates, the dependency arrays of the effects, and the stale closures in `checkCollisions`, `checkGoals` and `updatePlayerMovement` (which reads the captured player positions, held keys and `gameStarted`). A tick is an idealised sequential composition over fresh state.
- The `setInterval`/`clearInterval` timer (App.tsx:125-136) is represented by the guard on `Tick` and by `Match.RunInterval`. The 16 ms period is not modelled.
- Keyboard listeners (App.tsx:95-120) are not modelled. Input is the set of held lower-case key names.
- `PanResponder` drags (App.tsx:67-92) are not modelled. Input is a target position in field coordinates. The component reports `locationX`/`locationY` relative to the touched view, and that conversion is not modelled.
- `Math.sqrt`, `Math.atan2`, `Math.cos`, `Math.sin` and IEEE-754 rounding are not modelled. Numbers are exact reals, and the distance is a parameter constrained by its square. Signed zeros do not exist on `real`, so `atan2(±0, -0)` is not distinguished.
- Collisions.Kick: when the centres coincide, the contract gives the value (8, 0) but does not separately state parallelism with the zero separation.
- Match.Inv: the invariant is proved only on fields at least 230 x 30 (`Match.Playable`). On narrower fields the unclamped home positions can lie outside the player area.
