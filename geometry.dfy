/** The fixed configuration of the game (court, racket and ball sizes, speeds,
    winning score), the `Side` of a player, and the axis-aligned rectangles
    with the intersection test the collision code relies on. */
module Geometry {

  datatype Option<T> = None | Some(value: T)

  const WINDOW_WIDTH: real := 800.0
  const WINDOW_HEIGHT: real := 600.0

  const RACKET_WIDTH: real := 20.0
  const RACKET_HEIGHT: real := 100.0
  const RACKET_MARGIN: real := 20.0
  const RACKET_SPEED: real := 500.0

  const BALL_SIZE: real := 20.0
  const BALL_INIT_SPEED: real := 150.0
  const BALL_ACCEL: real := 10.0

  const WIN_SCORE: int := 5

  /** A player, and the half of the court and the racket that belong to it. */
  datatype Side = Left | Right

  /** The time elapsed since the previous frame, in seconds. */
  type FrameTime = t: real | t >= 0.0

  function Abs(v: real): (r: real)
    ensures r >= 0.0 && (r == v || r == -v)
  {
    if v < 0.0 then -v else v
  }

  function Max(a: real, b: real): real { if a < b then b else a }
  function Min(a: real, b: real): real { if a < b then a else b }

  /** The value of the closed range [lo, hi] nearest to `v`. */
  function Clamp(v: real, lo: real, hi: real): (r: real)
    requires lo <= hi
    ensures lo <= r <= hi
    ensures lo <= v <= hi ==> r == v
    ensures r == v || r == lo || r == hi
    ensures v < lo ==> r == lo
    ensures v > hi ==> r == hi
  {
    Max(lo, Min(v, hi))
  }

  /** No point of the range is closer to `v` than the clamped value. */
  lemma ClampIsNearest(v: real, lo: real, hi: real, z: real)
    requires lo <= hi && lo <= z <= hi
    ensures Abs(Clamp(v, lo, hi) - v) <= Abs(z - v)
  {
  }

  /** A rectangle given by its top-left corner and its size; y grows downwards. */
  datatype Rect = Rect(x: real, y: real, w: real, h: real) {
    function Right(): real { x + w }
    function Bottom(): real { y + h }
    function CentreX(): real { x + w * 0.5 }
    function CentreY(): real { y + h * 0.5 }
  }

  /** `r` has no negative extent and lies inside `outer`. */
  predicate Within(r: Rect, outer: Rect) {
    && r.w >= 0.0 && r.h >= 0.0
    && outer.x <= r.x && r.Right() <= outer.Right()
    && outer.y <= r.y && r.Bottom() <= outer.Bottom()
  }

  /** The closed rectangles `a` and `b` share at least one point. */
  predicate Overlap(a: Rect, b: Rect) {
    a.x <= b.Right() && b.x <= a.Right() && a.y <= b.Bottom() && b.y <= a.Bottom()
  }

  predicate Contains(r: Rect, px: real, py: real) {
    r.x <= px <= r.Right() && r.y <= py <= r.Bottom()
  }

  /** The common part of two rectangles, or `None` when they are apart.
      Rectangles that only touch along an edge have a common part of zero
      width or height. */
  function Intersect(a: Rect, b: Rect): (r: Option<Rect>)
    ensures r.Some? ==> Within(r.value, a) && Within(r.value, b)
    ensures a.w >= 0.0 && a.h >= 0.0 && b.w >= 0.0 && b.h >= 0.0 ==>
              (r.Some? <==> Overlap(a, b))
  {
    var left := Max(a.x, b.x);
    var top := Max(a.y, b.y);
    var right := Min(a.Right(), b.Right());
    var bottom := Min(a.Bottom(), b.Bottom());
    if right < left || bottom < top then None
    else Some(Rect(left, top, right - left, bottom - top))
  }

  /** A point lies in both rectangles exactly when it lies in their intersection. */
  lemma IntersectIsCommonPart(a: Rect, b: Rect, px: real, py: real)
    ensures Contains(a, px, py) && Contains(b, px, py)
            <==> Intersect(a, b).Some? && Contains(Intersect(a, b).value, px, py)
  {
  }

  lemma IntersectCommutes(a: Rect, b: Rect)
    ensures Intersect(a, b) == Intersect(b, a)
  {
  }
}
