/** The match as the game holds it: one `Pong` object whose fields every frame
    updates in place. Each method is proved to do to the fields what the rules
    in `GameRules` say it does to the match as a value, so the properties
    proved there hold of the object too. */
module Game {
  import opened Geometry
  import opened Rackets
  import opened Balls
  import opened Collisions
  import opened GameRules

  class Pong {
    var rackets: RacketPair
    var scores: (int, int)
    var ball: Ball
    var state: PongState

    /** The fields, as a value. */
    function Snapshot(): Game
      reads this
    {
      Game(rackets, ball, scores, state)
    }

    /** The invariant that every match reachable from `Pong::new` keeps. */
    ghost predicate Valid()
      reads this
    {
      Inv(Snapshot())
    }

    /** `Pong::new`: the clock bits pick the first ball's direction. */
    constructor (xBit: bool, yBit: bool)
      ensures Snapshot() == Initial(xBit, yBit)
      ensures Valid()
      ensures scores == (0, 0) && state == Playing
    {
      rackets := RacketPair(Rackets.New(Left), Rackets.New(Right));
      ball := Balls.New(None, xBit, yBit);
      scores := (0, 0);
      state := Playing;
    }

    /** `Pong::reset`: the object becomes a fresh match. */
    method Reset(xBit: bool, yBit: bool)
      modifies this
      ensures Snapshot() == Initial(xBit, yBit)
      ensures Valid()
      ensures scores == (0, 0) && state == Playing
    {
      var g := Initial(xBit, yBit);
      rackets, ball, scores, state := g.rackets, g.ball, g.scores, g.state;
    }

    /** `Pong::update_scores`. */
    method UpdateScores()
      modifies this
      ensures Snapshot() == Scored(old(Snapshot()))
      ensures rackets == old(rackets) && ball == old(ball)
      ensures old(ball.pos.0) < 0.0 ==>
                && scores == (old(scores.0), old(scores.1) + 1)
                && state == if scores.1 >= WIN_SCORE then Winner(Right) else NewRound(Left)
      ensures 0.0 <= old(ball.pos.0) && old(ball.pos.0) + BALL_SIZE > WINDOW_WIDTH ==>
                && scores == (old(scores.0) + 1, old(scores.1))
                && state == if scores.0 >= WIN_SCORE then Winner(Left) else NewRound(Right)
      ensures InCourtX(old(ball)) ==> scores == old(scores) && state == old(state)
    {
      if ball.pos.0 < 0.0 {
        scores := (scores.0, scores.1 + 1);
        state := if scores.1 >= WIN_SCORE then Winner(Right) else NewRound(Left);
      } else if ball.pos.0 + BALL_SIZE > WINDOW_WIDTH {
        scores := (scores.0 + 1, scores.1);
        state := if scores.0 >= WIN_SCORE then Winner(Left) else NewRound(Right);
      }
    }

    /** `Pong::update_collisions`: each racket in turn, left then right, may
        send the ball back. */
    method UpdateCollisions()
      modifies this
      ensures rackets == old(rackets) && scores == old(scores) && state == old(state)
      ensures ball == Collided(old(ball), rackets)
      ensures ball.pos == old(ball.pos) && ball.speed == old(ball.speed)
    {
      var rs := [rackets.0, rackets.1];
      for i := 0 to |rs|
        invariant rackets == old(rackets) && scores == old(scores) && state == old(state)
        invariant ball == ReboundAll(old(ball), rs[..i])
      {
        assert rs[..i + 1][..i] == rs[..i];
        var racket := rs[i];
        var ballRect := Rect(ball.pos.0, ball.pos.1, BALL_SIZE, BALL_SIZE);
        var racketRect := Rect(racket.pos.0, racket.pos.1, RACKET_WIDTH, RACKET_HEIGHT);
        var contact := Intersect(racketRect, ballRect);
        if contact.None? {
          continue;
        }
        var rect := contact.value;
        var racketCx := racketRect.x + racketRect.w * 0.5;
        match racket.side {
          case Left =>
            if rect.x < racketCx {
              continue;
            }
            ball := ball.(dir := (Abs(ball.dir.0), ball.dir.1));
          case Right =>
            if rect.x + rect.w > racketCx {
              continue;
            }
            ball := ball.(dir := (-Abs(ball.dir.0), ball.dir.1));
        }
        var rectCy := rect.y + rect.h * 0.5;
        var racketCy := racketRect.y + racketRect.h * 0.5;
        var ballDir := (rectCy - racketCy) / (racketRect.h * 0.5);
        ball := ball.(dir := (ball.dir.0, ballDir));
      }
      assert rs[..|rs|] == rs;
    }

    /** `Pong::update`: one frame. */
    method Update(f: Frame)
      modifies this
      ensures Snapshot() == Step(old(Snapshot()), f)
      ensures old(Valid()) ==> Valid()
    {
      if f.keys.q {
        state := Exit;
      }
      ghost var g1 := Snapshot();
      assert g1 == if f.keys.q then old(Snapshot()).(state := Exit) else old(Snapshot());
      match state {
        case NewRound(side) =>
          ball := Balls.New(Some(side), f.xBit, f.yBit);
          state := Playing;
        case Playing =>
          if f.keys.w {
            var r := Slide(rackets.0, -RACKET_SPEED, f.ft);
            rackets := rackets.(0 := r);
          }
          if f.keys.s {
            var r := Slide(rackets.0, RACKET_SPEED, f.ft);
            rackets := rackets.(0 := r);
          }
          if f.keys.up {
            var r := Slide(rackets.1, -RACKET_SPEED, f.ft);
            rackets := rackets.(1 := r);
          }
          if f.keys.down {
            var r := Slide(rackets.1, RACKET_SPEED, f.ft);
            rackets := rackets.(1 := r);
          }
          assert rackets.0 == Steered(g1.rackets.0, f.keys.w, f.keys.s, f.ft);
          assert rackets.1 == Steered(g1.rackets.1, f.keys.up, f.keys.down, f.ft);
          ball := Balls.Update(ball, f.ft);
          UpdateCollisions();
          UpdateScores();
          assert Snapshot() == Played(g1, f);
        case Winner(_) =>
          if f.keys.space {
            Reset(f.xBit, f.yBit);
          }
        case Exit =>
      }
      StepKeepsValid(old(Snapshot()), f, Snapshot());
    }

    /** `Pong::state`: the state the main loop reads after each frame; in a
        valid match it agrees with the scores. */
    function State(): (s: PongState)
      reads this
      ensures s == state
      ensures Valid() && (s.Playing? || s.NewRound?) ==> scores.0 < WIN_SCORE && scores.1 < WIN_SCORE
      ensures Valid() && s == Winner(Left) ==> scores.0 == WIN_SCORE
      ensures Valid() && s == Winner(Right) ==> scores.1 == WIN_SCORE
    {
      state
    }
  }
}
