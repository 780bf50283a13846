/** The rules of a match, as values: the state of a match, what one frame of
    `Pong::update` does to it, the invariant every reachable match keeps, and
    what holds over any sequence of frames. */
module GameRules {
  import opened Geometry
  import opened Rackets
  import opened Balls
  import opened Collisions

  datatype PongState = NewRound(server: Side) | Playing | Winner(winner: Side) | Exit

  /** The keys held down during a frame. */
  datatype Keys = Keys(q: bool, w: bool, s: bool, up: bool, down: bool, space: bool)

  /** What a frame brings from outside the game: the keys held, the time
      since the previous frame and the low bits of the clock read by
      `Ball::new` (the first for the horizontal direction when no side is
      given, the second for the vertical one). */
  datatype Frame = Frame(keys: Keys, ft: FrameTime, xBit: bool, yBit: bool)

  /** A whole match: the two rackets, the ball, the scores (left, right) and the state. */
  datatype Game = Game(rackets: RacketPair, ball: Ball, scores: (int, int), state: PongState)

  const NO_KEYS := Keys(false, false, false, false, false, false)

  /** Each racket keeps its side and its horizontal position for good. */
  predicate RacketsAtHome(rackets: RacketPair) {
    && rackets.0.side == Left && rackets.0.pos.0 == HomeX(Left)
    && rackets.1.side == Right && rackets.1.pos.0 == HomeX(Right)
  }

  /** Scores never exceed WIN_SCORE; while a match is on, neither side has
      reached it, and the winner is the side that has. */
  predicate ScoresAgree(scores: (int, int), state: PongState) {
    && 0 <= scores.0 <= WIN_SCORE && 0 <= scores.1 <= WIN_SCORE
    && match state
       case NewRound(_) => scores.0 < WIN_SCORE && scores.1 < WIN_SCORE
       case Playing => scores.0 < WIN_SCORE && scores.1 < WIN_SCORE
       case Winner(Left) => scores.0 == WIN_SCORE && scores.1 < WIN_SCORE
       case Winner(Right) => scores.1 == WIN_SCORE && scores.0 < WIN_SCORE
       case Exit => true
  }

  /** What holds of every match reachable from `Pong::new`. */
  ghost predicate Inv(g: Game) {
    && RacketsAtHome(g.rackets)
    && InTrack(g.rackets.0) && InTrack(g.rackets.1)
    && InCourtY(g.ball)
    && IsUnit(g.ball.dir.0) && -1.0 <= g.ball.dir.1 <= 1.0
    && g.ball.speed >= BALL_INIT_SPEED
    && ScoresAgree(g.scores, g.state)
    && (g.state == Playing ==> InCourtX(g.ball))
  }

  /** `Pong::new`: a fresh match, in play, nothing scored. */
  function Initial(xBit: bool, yBit: bool): (g: Game)
    ensures g.scores == (0, 0) && g.state == Playing
    ensures Inv(g)
  {
    Game(RacketPair(Rackets.New(Left), Rackets.New(Right)), Balls.New(None, xBit, yBit), (0, 0), Playing)
  }

  /** `Pong::update_scores`: a ball past the left edge is a point for Right,
      a ball past the right edge a point for Left; the side that scored wins
      on reaching WIN_SCORE, and otherwise the side that conceded serves. */
  function Scored(g: Game): (r: Game)
    ensures r.rackets == g.rackets && r.ball == g.ball
    ensures g.ball.pos.0 < 0.0 ==>
              && r.scores == (g.scores.0, g.scores.1 + 1)
              && r.state == if r.scores.1 >= WIN_SCORE then Winner(Right) else NewRound(Left)
    ensures 0.0 <= g.ball.pos.0 && g.ball.pos.0 + BALL_SIZE > WINDOW_WIDTH ==>
              && r.scores == (g.scores.0 + 1, g.scores.1)
              && r.state == if r.scores.0 >= WIN_SCORE then Winner(Left) else NewRound(Right)
    ensures InCourtX(g.ball) ==> r == g
  {
    if g.ball.pos.0 < 0.0 then
      var scores := (g.scores.0, g.scores.1 + 1);
      g.(scores := scores, state := if scores.1 >= WIN_SCORE then Winner(Right) else NewRound(Left))
    else if g.ball.pos.0 + BALL_SIZE > WINDOW_WIDTH then
      var scores := (g.scores.0 + 1, g.scores.1);
      g.(scores := scores, state := if scores.0 >= WIN_SCORE then Winner(Left) else NewRound(Right))
    else
      g
  }

  /** A racket under its two keys: the up key is applied first, then the down
      key, each move stopped at the ends of the track. */
  function Steered(r: Racket, upKey: bool, downKey: bool, ft: FrameTime): (r': Racket)
    ensures r'.side == r.side && r'.pos.0 == r.pos.0
    ensures !upKey && !downKey ==> r' == r
    ensures upKey && !downKey ==> r' == Slid(r, -RACKET_SPEED, ft)
    ensures !upKey && downKey ==> r' == Slid(r, RACKET_SPEED, ft)
    ensures upKey && downKey ==> r' == Slid(Slid(r, -RACKET_SPEED, ft), RACKET_SPEED, ft)
    ensures upKey || downKey ==> InTrack(r')
    ensures upKey && !downKey && InTrack(r) ==> r'.pos.1 <= r.pos.1
    ensures !upKey && downKey && InTrack(r) ==> r'.pos.1 >= r.pos.1
  {
    var r1 := if upKey then Slid(r, -RACKET_SPEED, ft) else r;
    if downKey then Slid(r1, RACKET_SPEED, ft) else r1
  }

  /** The `Playing` branch of `Pong::update`: rackets, then ball, then
      collisions, then scoring. */
  function Played(g: Game, f: Frame): Game {
    var left := Steered(g.rackets.0, f.keys.w, f.keys.s, f.ft);
    var right := Steered(g.rackets.1, f.keys.up, f.keys.down, f.ft);
    var ball := Collided(Moved(g.ball, f.ft), RacketPair(left, right));
    Scored(g.(rackets := RacketPair(left, right), ball := ball))
  }

  /** `Pong::update`: one frame of the match. */
  function Step(g: Game, f: Frame): Game {
    var g1 := if f.keys.q then g.(state := Exit) else g;
    match g1.state
    case NewRound(side) => g1.(ball := Balls.New(Some(side), f.xBit, f.yBit), state := Playing)
    case Playing => Played(g1, f)
    case Winner(_) => if f.keys.space then Initial(f.xBit, f.yBit) else g1
    case Exit => g1
  }

  /** The match after the frames `fs`, in order. */
  function Run(g: Game, fs: seq<Frame>): Game
    decreases |fs|
  {
    if fs == [] then g else Run(Step(g, fs[0]), fs[1..])
  }

  /** One frame keeps the invariant. */
  lemma StepKeepsInv(g: Game, f: Frame)
    requires Inv(g)
    ensures Inv(Step(g, f))
  {
  }

  /** The invariant carries over from a match to its next frame. */
  lemma StepKeepsValid(g: Game, f: Frame, next: Game)
    requires next == Step(g, f)
    ensures Inv(g) ==> Inv(next)
  {
    if Inv(g) {
      StepKeepsInv(g, f);
    }
  }

  /** Any number of frames keeps the invariant. */
  lemma {:induction false} RunKeepsInv(g: Game, fs: seq<Frame>)
    requires Inv(g)
    ensures Inv(Run(g, fs))
    decreases |fs|
  {
    if fs != [] {
      StepKeepsInv(g, fs[0]);
      RunKeepsInv(Step(g, fs[0]), fs[1..]);
    }
  }

  /** Whatever the frames, a match started by `Pong::new` keeps the scores
      within WIN_SCORE, below it while a match is on, the rackets in the
      court and the ball between the top and bottom walls. */
  lemma ReachableMatches(xBit: bool, yBit: bool, fs: seq<Frame>)
    ensures var g := Run(Initial(xBit, yBit), fs);
            && g.scores.0 <= WIN_SCORE && g.scores.1 <= WIN_SCORE
            && (g.state.Playing? || g.state.NewRound? ==> g.scores.0 < WIN_SCORE && g.scores.1 < WIN_SCORE)
            && InTrack(g.rackets.0) && InTrack(g.rackets.1) && InCourtY(g.ball)
  {
    RunKeepsInv(Initial(xBit, yBit), fs);
  }

  /** Q ends the match on the frame it is held, in any state, and nothing
      else changes on that frame. */
  lemma QuitExits(g: Game, f: Frame)
    requires f.keys.q
    ensures Step(g, f) == g.(state := Exit)
  {
  }

  /** Once over, a match stays as it is, whatever the frames. */
  lemma {:induction false} ExitIsFinal(g: Game, fs: seq<Frame>)
    requires g.state == Exit
    ensures Run(g, fs) == g
    decreases |fs|
  {
    if fs != [] {
      assert Step(g, fs[0]) == g;
      ExitIsFinal(g, fs[1..]);
    }
  }

  /** A new round serves a fresh ball towards the side that conceded the
      last point, and play resumes; rackets and scores stay. */
  lemma NewRoundServes(g: Game, f: Frame)
    requires g.state.NewRound? && !f.keys.q
    ensures var g' := Step(g, f);
            && g' == g.(ball := Balls.New(Some(g.state.server), f.xBit, f.yBit), state := Playing)
            && (g.state.server == Left ==> g'.ball.dir.0 == -1.0)
            && (g.state.server == Right ==> g'.ball.dir.0 == 1.0)
            && g'.ball.speed == BALL_INIT_SPEED
  {
  }

  /** The winner's screen holds the match still until Space starts a new one. */
  lemma WinnerWaitsForSpace(g: Game, f: Frame)
    requires g.state.Winner? && !f.keys.q
    ensures f.keys.space ==> Step(g, f) == Initial(f.xBit, f.yBit)
    ensures !f.keys.space ==> Step(g, f) == g
    ensures f.keys.space ==> Step(g, f).scores == (0, 0) && Step(g, f).state == Playing
  {
  }

  /** A frame of play: the ball, once moved, decides whether a point is
      scored; the point goes to the side opposite the edge crossed, and the
      side that scored wins when its score reaches WIN_SCORE. */
  lemma PlayingFrameScores(g: Game, f: Frame)
    requires Inv(g) && g.state == Playing && !f.keys.q
    ensures var g' := Step(g, f);
            var x := Moved(g.ball, f.ft).pos.0;
            && (x < 0.0 ==>
                  && g'.scores == (g.scores.0, g.scores.1 + 1)
                  && g'.state == if g.scores.1 + 1 == WIN_SCORE then Winner(Right) else NewRound(Left))
            && (0.0 <= x && x + BALL_SIZE > WINDOW_WIDTH ==>
                  && g'.scores == (g.scores.0 + 1, g.scores.1)
                  && g'.state == if g.scores.0 + 1 == WIN_SCORE then Winner(Left) else NewRound(Right))
            && (0.0 <= x && x + BALL_SIZE <= WINDOW_WIDTH ==>
                  g'.scores == g.scores && g'.state == Playing)
  {
  }

  /** Scores only go up, by one point per frame at most, except when Space
      on the winner's screen starts a new match. */
  lemma ScoresNeverDecrease(g: Game, f: Frame)
    ensures var g' := Step(g, f);
            || (g.state.Winner? && !f.keys.q && f.keys.space && g' == Initial(f.xBit, f.yBit))
            || g'.scores == g.scores
            || g'.scores == (g.scores.0 + 1, g.scores.1)
            || g'.scores == (g.scores.0, g.scores.1 + 1)
  {
  }

  /** In a frame of play, W and S steer the left racket and Up and Down the
      right one; the ball and the scoring then see the rackets where they
      ended. */
  lemma PlayingFrameSteers(g: Game, f: Frame)
    requires g.state == Playing && !f.keys.q
    ensures Step(g, f).rackets.0 == Steered(g.rackets.0, f.keys.w, f.keys.s, f.ft)
    ensures Step(g, f).rackets.1 == Steered(g.rackets.1, f.keys.up, f.keys.down, f.ft)
  {
  }

  /** A frame of no time with no key held leaves rackets, ball position and
      scores as they were, and play goes on. */
  lemma IdleFrameIsStill(g: Game, xBit: bool, yBit: bool)
    requires Inv(g) && g.state == Playing
    ensures var g' := Step(g, Frame(NO_KEYS, 0.0, xBit, yBit));
            && g'.rackets == g.rackets && g'.ball.pos == g.ball.pos
            && g'.scores == g.scores && g'.state == Playing
  {
  }

  /** Holding both keys of a racket in its track: the up move, stopped at the
      top, then the down move, stopped at the bottom. The racket ends at the
      lower of where it was and one frame's travel from the top, so it stays
      put exactly when it is at least one frame's travel from the top or sits
      at the bottom of the track. */
  lemma BothKeysHeld(r: Racket, ft: FrameTime)
    requires InTrack(r)
    ensures var r' := Steered(r, true, true, ft);
            && r' == Slid(Slid(r, -RACKET_SPEED, ft), RACKET_SPEED, ft)
            && r'.pos.1 == Max(r.pos.1, Min(RACKET_SPEED * ft, TRACK_END))
            && (r' == r <==> r.pos.1 >= RACKET_SPEED * ft || r.pos.1 == TRACK_END)
  {
  }

  /** Holding both keys of a racket does not always cancel out: each move is
      stopped at the end of the track before the next, so a racket at the top
      holding W and S moves down by one frame's travel. */
  lemma OppositeKeysAtTop(g: Game)
    requires Inv(g) && g.state == Playing && g.rackets.0.pos.1 == 0.0
    ensures var f := Frame(NO_KEYS.(w := true, s := true), 0.1, false, false);
            Step(g, f).rackets.0.pos.1 == RACKET_SPEED * 0.1
  {
  }
}
