/**
 * The goal detector (`checkGoals` and `resetBall`, App.tsx:187-213).
 * Each end of the field has a goal region `GoalWidth` deep and open over
 * the vertical band of height `GoalHeight` centred on the field. A ball in
 * the right-hand region scores for player 1, one in the left-hand region
 * for player 2; a goal recentres the ball at rest.
 *
 * The two tests are independent `if`s on the ball position read before
 * either goal resets it, so on a field narrower than twice the goal depth
 * a ball can lie in both regions and both players score in the same tick.
 */
module Goals {
  import opened Geometry
  import opened Physics

  /** The open vertical band of the goal mouths. */
  predicate InGoalBand(f: Field, y: real) {
    (f.height - GoalHeight) / 2.0 < y < (f.height + GoalHeight) / 2.0
  }

  /** The ball is in the right-hand goal: a point for player 1. */
  predicate InRightGoal(f: Field, p: Vec) {
    p.x > f.width - GoalWidth && InGoalBand(f, p.y)
  }

  /** The ball is in the left-hand goal: a point for player 2. */
  predicate InLeftGoal(f: Field, p: Vec) {
    p.x < GoalWidth && InGoalBand(f, p.y)
  }

  datatype GoalOutcome = GoalOutcome(ball: Ball, score1: nat, score2: nat)

  /** `checkGoals`: credit the goals the ball is in and recentre it after a goal. */
  function CheckGoals(f: Field, b: Ball, score1: nat, score2: nat): (r: GoalOutcome)
    ensures InRightGoal(f, b.pos) ==> r.score1 == score1 + 1
    ensures !InRightGoal(f, b.pos) ==> r.score1 == score1
    ensures InLeftGoal(f, b.pos) ==> r.score2 == score2 + 1
    ensures !InLeftGoal(f, b.pos) ==> r.score2 == score2
    ensures InRightGoal(f, b.pos) || InLeftGoal(f, b.pos) ==> r.ball == CentredBall(f)
    ensures !InRightGoal(f, b.pos) && !InLeftGoal(f, b.pos) ==> r.ball == b
  {
    var ballX := b.pos.x;
    var ballY := b.pos.y;
    var afterRight :=
      if ballX > f.width - GoalWidth && InGoalBand(f, ballY) then
        GoalOutcome(CentredBall(f), score1 + 1, score2)
      else
        GoalOutcome(b, score1, score2);
    if ballX < GoalWidth && InGoalBand(f, ballY) then
      GoalOutcome(CentredBall(f), afterRight.score1, afterRight.score2 + 1)
    else
      afterRight
  }

  /**
   * The two goal regions share a point exactly when the field is narrower
   * than twice the goal depth; on any wider field a tick credits at most one goal.
   */
  lemma GoalsOverlapIffNarrow(f: Field)
    ensures (exists p :: InRightGoal(f, p) && InLeftGoal(f, p)) <==> f.width < 2.0 * GoalWidth
  {
    if f.width < 2.0 * GoalWidth {
      var c := Centre(f);
      assert InRightGoal(f, c) && InLeftGoal(f, c);
    }
  }

  /** On a field at least twice the goal depth wide, at most one player scores per check. */
  lemma AtMostOneGoal(f: Field, b: Ball, score1: nat, score2: nat)
    requires f.width >= 2.0 * GoalWidth
    ensures var r := CheckGoals(f, b, score1, score2);
            r.score1 + r.score2 <= score1 + score2 + 1
  {
  }

  /**
   * A ball just inside the right-hand end, at mid height, scores exactly one
   * point for player 1 and is put back in the centre at rest.
   */
  lemma RightGoalExample(f: Field, score1: nat, score2: nat, vel: Vec)
    requires f.width >= GoalWidth + 1.0
    ensures CheckGoals(f, Ball(Vec(f.width - 1.0, f.height / 2.0), vel), score1, score2)
         == GoalOutcome(Ball(Vec(f.width / 2.0, f.height / 2.0), Vec(0.0, 0.0)), score1 + 1, score2)
  {
  }
}
