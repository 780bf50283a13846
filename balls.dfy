/** The ball: position of its top-left corner, direction and scalar speed.
    Each frame it moves along its direction, bounces off the top and bottom
    walls and speeds up. */
module Balls {
  import opened Geometry

  datatype Ball = Ball(pos: (real, real), dir: (real, real), speed: real)

  /** The lowest position of the ball's top edge that keeps it in the court. */
  const BALL_FLOOR: real := WINDOW_HEIGHT - BALL_SIZE

  predicate IsUnit(d: real) { d == -1.0 || d == 1.0 }

  /** The ball lies within the court's vertical extent. */
  predicate InCourtY(b: Ball) { 0.0 <= b.pos.1 <= BALL_FLOOR }

  /** The ball lies within the court's horizontal extent. */
  predicate InCourtX(b: Ball) { 0.0 <= b.pos.0 && b.pos.0 + BALL_SIZE <= WINDOW_WIDTH }

  /** A pseudo-random direction component from the low bit of the clock:
      a set bit gives +1, a clear one -1. */
  function RandomDir(lowBit: bool): (d: real)
    ensures IsUnit(d)
    ensures d == 1.0 <==> lowBit
  {
    (if lowBit then 1 else 0) as real * 2.0 - 1.0
  }

  /** `Ball::new`: a ball in the centre of the court at its initial speed,
      heading towards `side` when one is given; `xBit` and `yBit` are the
      clock bits for the directions that are left to chance. */
  function New(side: Option<Side>, xBit: bool, yBit: bool): (b: Ball)
    ensures b.pos.0 + BALL_SIZE * 0.5 == WINDOW_WIDTH * 0.5
    ensures b.pos.1 + BALL_SIZE * 0.5 == WINDOW_HEIGHT * 0.5
    ensures b.speed == BALL_INIT_SPEED
    ensures side == Some(Left) ==> b.dir.0 == -1.0
    ensures side == Some(Right) ==> b.dir.0 == 1.0
    ensures side == None ==> (b.dir.0 == 1.0 <==> xBit)
    ensures IsUnit(b.dir.0) && IsUnit(b.dir.1) && (b.dir.1 == 1.0 <==> yBit)
    ensures InCourtX(b) && InCourtY(b)
  {
    var x := WINDOW_WIDTH * 0.5 - BALL_SIZE * 0.5;
    var y := WINDOW_HEIGHT * 0.5 - BALL_SIZE * 0.5;
    var dirX := match side
      case Some(Left) => -1.0
      case Some(Right) => 1.0
      case None => RandomDir(xBit);
    Ball((x, y), (dirX, RandomDir(yBit)), BALL_INIT_SPEED)
  }

  /** Where the ball's top edge would be after `ft` seconds without walls. */
  function FreeY(b: Ball, ft: FrameTime): real {
    b.pos.1 + b.dir.1 * (b.speed * ft)
  }

  /** The ball reaches the top or the bottom wall during the frame. */
  predicate HitsWall(b: Ball, ft: FrameTime) {
    FreeY(b, ft) < 0.0 || FreeY(b, ft) > BALL_FLOOR
  }

  /** The ball after one frame of `ft` seconds: it advances at the speed it had
      at the start of the frame, is stopped at the wall it reaches and then
      heads back vertically, and gains BALL_ACCEL per second of speed. */
  function Moved(b: Ball, ft: FrameTime): (r: Ball)
    ensures InCourtY(r)
    ensures r.pos.0 == b.pos.0 + b.dir.0 * (b.speed * ft)
    ensures !HitsWall(b, ft) ==> r.pos.1 == FreeY(b, ft)
    ensures FreeY(b, ft) < 0.0 ==> r.pos.1 == 0.0
    ensures FreeY(b, ft) > BALL_FLOOR ==> r.pos.1 == BALL_FLOOR
    ensures r.dir.0 == b.dir.0
    ensures r.dir.1 == if HitsWall(b, ft) then -b.dir.1 else b.dir.1
    ensures r.speed == b.speed + ft * BALL_ACCEL && r.speed >= b.speed
  {
    var y := Clamp(FreeY(b, ft), 0.0, BALL_FLOOR);
    Ball((b.pos.0 + b.dir.0 * (b.speed * ft), y),
         (b.dir.0, if y == FreeY(b, ft) then b.dir.1 else -b.dir.1),
         b.speed + ft * BALL_ACCEL)
  }

  /** `Ball::update`: one frame of movement. */
  method Update(b: Ball, ft: FrameTime) returns (r: Ball)
    ensures r == Moved(b, ft)
  {
    r := b;
    var delta := r.speed * ft;
    r := r.(pos := (r.pos.0 + r.dir.0 * delta, r.pos.1));
    var y := r.pos.1 + r.dir.1 * delta;
    assert y == FreeY(b, ft) && r.pos.0 == Moved(b, ft).pos.0;
    if y < 0.0 {
      r := r.(pos := (r.pos.0, 0.0), dir := (r.dir.0, -r.dir.1));
    } else if y + BALL_SIZE > WINDOW_HEIGHT {
      r := r.(pos := (r.pos.0, WINDOW_HEIGHT - BALL_SIZE), dir := (r.dir.0, -r.dir.1));
    } else {
      r := r.(pos := (r.pos.0, y));
    }
    r := r.(speed := r.speed + ft * BALL_ACCEL);
    assert r.pos.1 == Moved(b, ft).pos.1 && r.dir.1 == Moved(b, ft).dir.1;
  }
}
