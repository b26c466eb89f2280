/**
 * The match: the game state, the start and reset commands (App.tsx:257-271),
 * the win check (App.tsx:274-282), one tick of the game loop
 * (App.tsx:124-130) and the buttons that are offered in each phase
 * (App.tsx:355-375).
 *
 * A tick is modelled as the sequential composition integrate, collide,
 * score, move over the state left by the previous step. This is an
 * idealisation: in the component, the collision and goal checks and the
 * key movement read the ball, players, held keys and `gameStarted`
 * captured when the loop was last scheduled, not the values the preceding
 * updates just queued.
 */
module Match {
  import opened Geometry
  import opened Physics
  import opened Collisions
  import opened Goals
  import opened Movement

  /** Points needed to win. */
  const WinningScore: nat := 2

  /** A player's disc; its id is its slot in `Game`, and its colour is presentation only. */
  datatype Player = Player(pos: Vec, score: nat)

  datatype Winner = Undecided | Player1 | Player2

  datatype Phase = Idle | Playing | Finished

  /** The component's state: two players, the ball, `gameStarted` and `winner`. */
  datatype Game = Game(p1: Player, p2: Player, ball: Ball, started: bool, winner: Winner)

  /** The phase the two flags `gameStarted` and `winner` encode. */
  function PhaseOf(g: Game): (p: Phase)
    ensures p == Playing <==> g.started && g.winner == Undecided
    ensures p == Idle <==> !g.started && g.winner == Undecided
    ensures p == Finished <==> g.winner != Undecided
  {
    if g.winner != Undecided then Finished else if g.started then Playing else Idle
  }

  /** Where each player stands before a match: 100 either side of the centre. */
  function Player1Home(f: Field): Vec {
    Vec(f.width / 2.0 - 100.0, f.height / 2.0)
  }

  function Player2Home(f: Field): Vec {
    Vec(f.width / 2.0 + 100.0, f.height / 2.0)
  }

  /**
   * The state the component is created with: idle, no points, the ball at
   * rest in the centre and the players 200 apart, symmetric about it.
   */
  function Initial(f: Field): (g: Game)
    ensures PhaseOf(g) == Idle && g.p1.score == 0 && g.p2.score == 0
    ensures g.ball.vel == Zero && 2.0 * g.ball.pos.x == f.width && 2.0 * g.ball.pos.y == f.height
    ensures g.p1.pos.x + g.p2.pos.x == f.width && g.p2.pos.x - g.p1.pos.x == 200.0
    ensures g.p1.pos.y == g.ball.pos.y && g.p2.pos.y == g.ball.pos.y
    ensures Playable(f) ==> InPlayerArea(f, g.p1.pos) && InPlayerArea(f, g.p2.pos)
  {
    Game(Player(Player1Home(f), 0), Player(Player2Home(f), 0), CentredBall(f), false, Undecided)
  }

  /** A field on which the home positions and the ball's centre lie inside the play area. */
  predicate Playable(f: Field) {
    f.width >= 2.0 * (100.0 + Margin) && f.height >= PlayerSize
  }

  /** The window sizes that give a playable field. */
  lemma PlayableScreens(screenWidth: real, screenHeight: real)
    ensures Playable(FieldForScreen(screenWidth, screenHeight)) <==> screenWidth >= 270.0 && screenHeight >= 280.0
  {
  }

  /** `startGame`: a fresh match from wherever the players stand. */
  function Start(f: Field, g: Game): (r: Game)
    ensures PhaseOf(r) == Playing
    ensures r.p1.score == 0 && r.p2.score == 0
    ensures r.p1.pos == g.p1.pos && r.p2.pos == g.p2.pos
    ensures r.ball.pos == Centre(f) && r.ball.vel == Zero
  {
    g.(started := true, winner := Undecided,
       p1 := g.p1.(score := 0), p2 := g.p2.(score := 0),
       ball := CentredBall(f))
  }

  /** `resetGame`: back to the state the component started in, whatever came before. */
  function Reset(f: Field, g: Game): (r: Game)
    ensures r == Initial(f)
    ensures PhaseOf(r) == Idle
  {
    g.(started := false, winner := Undecided,
       p1 := g.p1.(pos := Player1Home(f), score := 0),
       p2 := g.p2.(pos := Player2Home(f), score := 0),
       ball := CentredBall(f))
  }

  lemma ResetIdempotent(f: Field, g: Game)
    ensures Reset(f, Reset(f, g)) == Reset(f, g)
  {
  }

  /**
   * The win check: player 1 is examined first, so player 1 wins whenever
   * both have reached the winning score. A winner is only ever recorded
   * together with stopping the game.
   */
  function WinCheck(g: Game): (r: Game)
    ensures g.p1.score >= WinningScore ==> r.winner == Player1 && !r.started
    ensures g.p1.score < WinningScore && g.p2.score >= WinningScore ==> r.winner == Player2 && !r.started
    ensures g.p1.score < WinningScore && g.p2.score < WinningScore ==> r == g
    ensures r.p1 == g.p1 && r.p2 == g.p2 && r.ball == g.ball
    ensures r.winner != g.winner ==> !r.started
  {
    if g.p1.score >= WinningScore then
      g.(winner := Player1, started := false)
    else if g.p2.score >= WinningScore then
      g.(winner := Player2, started := false)
    else
      g
  }

  /** `norm` computes the Euclidean length of a vector, as `Math.sqrt(dx * dx + dy * dy)` does. */
  ghost predicate EuclideanNorm(norm: (real, real) -> real) {
    forall dx: real, dy: real :: IsLength(dx, dy, norm(dx, dy))
  }

  /** A score that stayed put or went up by exactly one. */
  predicate ScoreStep(before: nat, after: nat) {
    after == before || after == before + 1
  }

  /**
   * The body of the loop callback, in its order: integrate the ball, let
   * the players kick it, credit goals, then move the players by the held
   * keys.
   */
  function Advance(f: Field, g: Game, keys: set<string>, norm: (real, real) -> real): (r: Game)
    requires EuclideanNorm(norm)
    ensures var rolled := UpdateBall(f, g.ball).pos;
            && (r.p1.score == g.p1.score + 1 <==> InRightGoal(f, rolled))
            && (r.p2.score == g.p2.score + 1 <==> InLeftGoal(f, rolled))
    ensures ScoreStep(g.p1.score, r.p1.score) && ScoreStep(g.p2.score, r.p2.score)
    ensures f.width >= 2.0 * GoalWidth ==> r.p1.score + r.p2.score <= g.p1.score + g.p2.score + 1
    ensures r.started == g.started && r.winner == g.winner
    ensures f.width >= BallSize && f.height >= BallSize ==> InField(f, r.ball.pos)
    ensures Norm2(r.ball.vel) <= Norm2(g.ball.vel) || Norm2(r.ball.vel) <= KickForce * KickForce
    ensures f.width >= PlayerSize && f.height >= PlayerSize && InPlayerArea(f, g.p1.pos) ==> InPlayerArea(f, r.p1.pos)
    ensures f.width >= PlayerSize && f.height >= PlayerSize && InPlayerArea(f, g.p2.pos) ==> InPlayerArea(f, r.p2.pos)
    ensures r.p1.pos == Steer(f, g.started, keys, Wasd, g.p1.pos)
    ensures r.p2.pos == Steer(f, g.started, keys, Arrows, g.p2.pos)
    ensures var rolled := UpdateBall(f, g.ball);
            InRightGoal(f, rolled.pos) || InLeftGoal(f, rolled.pos) ==> r.ball == CentredBall(f)
    ensures var rolled := UpdateBall(f, g.ball);
            var dx1, dy1 := rolled.pos.x - g.p1.pos.x, rolled.pos.y - g.p1.pos.y;
            var dx2, dy2 := rolled.pos.x - g.p2.pos.x, rolled.pos.y - g.p2.pos.y;
            !InRightGoal(f, rolled.pos) && !InLeftGoal(f, rolled.pos) ==>
              && r.ball.pos == rolled.pos
              && (Overlaps(rolled.pos, g.p2.pos) ==> r.ball.vel == Kick(dx2, dy2, norm(dx2, dy2)))
              && (!Overlaps(rolled.pos, g.p2.pos) && Overlaps(rolled.pos, g.p1.pos) ==>
                    r.ball.vel == Kick(dx1, dy1, norm(dx1, dy1)))
              && (!Overlaps(rolled.pos, g.p1.pos) && !Overlaps(rolled.pos, g.p2.pos) ==> r.ball == rolled)
  {
    SteerIgnoresOtherKeys(f, g.started, keys, Wasd, g.p1.pos);
    SteerIgnoresOtherKeys(f, g.started, keys, Arrows, g.p2.pos);
    var rolled := UpdateBall(f, g.ball);
    var d1 := norm(rolled.pos.x - g.p1.pos.x, rolled.pos.y - g.p1.pos.y);
    var d2 := norm(rolled.pos.x - g.p2.pos.x, rolled.pos.y - g.p2.pos.y);
    var kicked := CheckCollisions(rolled, g.p1.pos, g.p2.pos, d1, d2);
    var scored := CheckGoals(f, kicked, g.p1.score, g.p2.score);
    var moved := UpdatePlayerMovement(f, g.started, keys, g.p1.pos, g.p2.pos);
    Game(Player(moved.0, scored.score1), Player(moved.1, scored.score2), scored.ball, g.started, g.winner)
  }

  datatype PlayerId = One | Two

  /** What can happen to the game: a button press, a drag of a player's disc, or a timer tick. */
  datatype Event =
    | PressStart
    | PressReset
    | PressRestart
    | Drag(who: PlayerId, target: Vec)
    | Tick(keys: set<string>)
  {
    /** The events that start or end a match. */
    predicate IsCommand() {
      PressStart? || PressReset? || PressRestart?
    }
  }

  /** The button for a command is on screen: start when idle, reset while playing, restart once won. */
  predicate Offered(g: Game, e: Event)
    ensures e == PressStart ==> (Offered(g, e) <==> !g.started && g.winner == Undecided)
    ensures e == PressReset ==> (Offered(g, e) <==> g.started && g.winner == Undecided)
    ensures e == PressRestart ==> (Offered(g, e) <==> g.winner != Undecided)
    ensures !e.IsCommand() ==> Offered(g, e)
  {
    match e
    case PressStart => PhaseOf(g) == Idle
    case PressReset => PhaseOf(g) == Playing
    case PressRestart => PhaseOf(g) == Finished
    case _ => true
  }

  /**
   * One event. Start is offered only in the idle phase, Reset only while
   * playing and Restart (which also calls `resetGame`) only once there is
   * a winner; a drag moves a player only while the game is started; a tick
   * runs only while the game is started and undecided, and the win check
   * follows the score changes it makes.
   */
  function Step(f: Field, g: Game, e: Event, norm: (real, real) -> real): (r: Game)
    requires EuclideanNorm(norm)
    ensures e.Tick? && PhaseOf(g) != Playing ==> r == g
    ensures e.IsCommand() && !Offered(g, e) ==> r == g
    ensures e == PressStart && Offered(g, e) ==>
              PhaseOf(r) == Playing && r.p1.score == 0 && r.p2.score == 0 && r.p1.pos == g.p1.pos && r.p2.pos == g.p2.pos
    ensures e == PressStart && Offered(g, e) ==> r.ball == CentredBall(f) && r.ball.vel == Zero
    ensures (e == PressReset || e == PressRestart) && Offered(g, e) ==> r == Initial(f)
    ensures e.Tick? && PhaseOf(g) == Playing ==>
              var a := Advance(f, g, e.keys, norm);
              && r.p1 == a.p1 && r.p2 == a.p2 && r.ball == a.ball
              && (a.p1.score >= WinningScore ==> r.winner == Player1 && !r.started)
              && (a.p1.score < WinningScore && a.p2.score >= WinningScore ==> r.winner == Player2 && !r.started)
              && (a.p1.score < WinningScore && a.p2.score < WinningScore ==> PhaseOf(r) == Playing)
    ensures e.Drag? && !g.started ==> r == g
    ensures e.Drag? && g.started && e.who == One ==>
              r == g.(p1 := g.p1.(pos := MovePlayer(f, e.target)))
    ensures e.Drag? && g.started && e.who == Two ==>
              r == g.(p2 := g.p2.(pos := MovePlayer(f, e.target)))
    ensures !e.IsCommand() ==> ScoreStep(g.p1.score, r.p1.score) && ScoreStep(g.p2.score, r.p2.score)
  {
    match e
    case PressStart =>
      if !g.started && g.winner == Undecided then Start(f, g) else g
    case PressReset =>
      if g.started && g.winner == Undecided then Reset(f, g) else g
    case PressRestart =>
      if g.winner != Undecided then Reset(f, g) else g
    case Drag(who, target) =>
      if !g.started then g
      else if who == One then g.(p1 := g.p1.(pos := MovePlayer(f, target)))
      else g.(p2 := g.p2.(pos := MovePlayer(f, target)))
    case Tick(keys) =>
      if g.started && g.winner == Undecided then WinCheck(Advance(f, g, keys, norm)) else g
  }

  /** The state after a sequence of events. */
  function Run(f: Field, g: Game, es: seq<Event>, norm: (real, real) -> real): Game
    requires EuclideanNorm(norm)
    decreases |es|
  {
    if |es| == 0 then g else Run(f, Step(f, g, es[0], norm), es[1..], norm)
  }

  lemma {:induction false} RunAppend(f: Field, g: Game, es: seq<Event>, e: Event, norm: (real, real) -> real)
    requires EuclideanNorm(norm)
    ensures Run(f, g, es + [e], norm) == Step(f, Run(f, g, es, norm), e, norm)
    decreases |es|
  {
    if |es| > 0 {
      assert (es + [e])[1..] == es[1..] + [e];
      RunAppend(f, Step(f, g, es[0], norm), es[1..], e, norm);
    }
  }

  /**
   * What every reachable state satisfies on a playable field: ball and
   * players inside the field, the ball no faster than a kick, a winner
   * only in a stopped game, and a winner exactly when one player has two
   * points and the other fewer.
   */
  ghost predicate Inv(f: Field, g: Game) {
    && InField(f, g.ball.pos)
    && Norm2(g.ball.vel) <= KickForce * KickForce
    && InPlayerArea(f, g.p1.pos)
    && InPlayerArea(f, g.p2.pos)
    && (g.winner != Undecided ==> !g.started)
    && (g.winner == Undecided ==> g.p1.score < WinningScore && g.p2.score < WinningScore)
    && (g.winner == Player1 ==> g.p1.score == WinningScore && g.p2.score < WinningScore)
    && (g.winner == Player2 ==> g.p2.score == WinningScore && g.p1.score < WinningScore)
  }

  lemma InitialInv(f: Field)
    requires Playable(f)
    ensures Inv(f, Initial(f))
  {
  }

  lemma StepInv(f: Field, g: Game, e: Event, norm: (real, real) -> real)
    requires Playable(f) && Inv(f, g) && EuclideanNorm(norm)
    ensures Inv(f, Step(f, g, e, norm))
  {
    match e
    case Tick(keys) =>
      if g.started && g.winner == Undecided {
        var a := Advance(f, g, keys, norm);
        assert Norm2(a.ball.vel) <= KickForce * KickForce;
        assert a.p1.score <= WinningScore && a.p2.score <= WinningScore;
      }
    case _ =>
  }

  lemma {:induction false} RunInv(f: Field, g: Game, es: seq<Event>, norm: (real, real) -> real)
    requires Playable(f) && Inv(f, g) && EuclideanNorm(norm)
    ensures Inv(f, Run(f, g, es, norm))
    decreases |es|
  {
    if |es| > 0 {
      StepInv(f, g, es[0], norm);
      RunInv(f, Step(f, g, es[0], norm), es[1..], norm);
    }
  }

  /** The phase changes the component allows; a finished game never resumes directly. */
  predicate AllowedTransition(from: Phase, to: Phase) {
    || from == to
    || (from == Idle && to == Playing)
    || (from == Playing && to == Finished)
    || (from == Playing && to == Idle)
    || (from == Finished && to == Idle)
  }

  lemma StepPhase(f: Field, g: Game, e: Event, norm: (real, real) -> real)
    requires Playable(f) && Inv(f, g) && EuclideanNorm(norm)
    ensures AllowedTransition(PhaseOf(g), PhaseOf(Step(f, g, e, norm)))
    ensures PhaseOf(Step(f, g, e, norm)) == Playing && PhaseOf(g) != Playing ==> e == PressStart
  {
  }

  /** Once there is a winner, nothing but the restart button changes the game. */
  lemma FinishedIsFrozen(f: Field, g: Game, e: Event, norm: (real, real) -> real)
    requires Inv(f, g) && EuclideanNorm(norm)
    requires PhaseOf(g) == Finished && e != PressRestart
    ensures Step(f, g, e, norm) == g
  {
  }

  /**
   * The second goal of a player who has one point ends the match in that
   * player's favour.
   */
  lemma SecondGoalWins(f: Field, g: Game, keys: set<string>, norm: (real, real) -> real)
    requires Playable(f) && Inv(f, g) && EuclideanNorm(norm)
    requires PhaseOf(g) == Playing && g.p1.score == 1
    requires InRightGoal(f, UpdateBall(f, g.ball).pos)
    ensures var r := Step(f, g, Tick(keys), norm);
            PhaseOf(r) == Finished && r.winner == Player1 && r.p1.score == 2
  {
  }

  /** Scores never decrease while no match-level command is given. */
  lemma {:induction false} ScoresMonotone(f: Field, g: Game, es: seq<Event>, norm: (real, real) -> real)
    requires EuclideanNorm(norm)
    requires forall i :: 0 <= i < |es| ==> !es[i].IsCommand()
    ensures Run(f, g, es, norm).p1.score >= g.p1.score
    ensures Run(f, g, es, norm).p2.score >= g.p2.score
    decreases |es|
  {
    if |es| > 0 {
      assert !es[0].IsCommand();
      ScoresMonotone(f, Step(f, g, es[0], norm), es[1..], norm);
    }
  }

  function TickEvents(samples: seq<set<string>>): (es: seq<Event>)
    ensures |es| == |samples|
    ensures forall i :: 0 <= i < |samples| ==> es[i] == Tick(samples[i])
  {
    seq(|samples|, i requires 0 <= i < |samples| => Tick(samples[i]))
  }

  /** Ticking through one more sample is one more step. */
  lemma RunOneMoreTick(f: Field, g: Game, samples: seq<set<string>>, k: nat, norm: (real, real) -> real)
    requires k < |samples| && EuclideanNorm(norm)
    ensures Run(f, g, TickEvents(samples[..k + 1]), norm)
         == Step(f, Run(f, g, TickEvents(samples[..k]), norm), Tick(samples[k]), norm)
  {
    assert TickEvents(samples[..k + 1]) == TickEvents(samples[..k]) + [Tick(samples[k])];
    RunAppend(f, g, TickEvents(samples[..k]), Tick(samples[k]), norm);
  }

  /**
   * The interval timer: one tick per sampled set of held keys, for as
   * long as the game is being played. Once the phase leaves Playing the
   * interval is cleared and the remaining samples are never used.
   */
  method RunInterval(f: Field, g: Game, samples: seq<set<string>>, norm: (real, real) -> real)
    returns (r: Game, ticks: nat)
    requires Playable(f) && Inv(f, g) && EuclideanNorm(norm)
    ensures ticks <= |samples|
    ensures r == Run(f, g, TickEvents(samples[..ticks]), norm)
    ensures Inv(f, r)
    ensures ticks < |samples| ==> PhaseOf(r) != Playing
    ensures r.p1.score >= g.p1.score && r.p2.score >= g.p2.score
  {
    r, ticks := g, 0;
    while ticks < |samples| && PhaseOf(r) == Playing
      invariant ticks <= |samples|
      invariant r == Run(f, g, TickEvents(samples[..ticks]), norm)
      invariant Inv(f, r)
      invariant r.p1.score >= g.p1.score && r.p2.score >= g.p2.score
    {
      var e := Tick(samples[ticks]);
      RunOneMoreTick(f, g, samples, ticks, norm);
      StepInv(f, r, e, norm);
      var next := Step(f, r, e, norm);
      assert ScoreStep(r.p1.score, next.p1.score) && ScoreStep(r.p2.score, next.p2.score);
      r := next;
      ticks := ticks + 1;
    }
  }
}
