/** How a ball rebounds off the rackets. A racket hits the ball only where the
    two overlap on the racket's ball-facing half; the hit sends the ball back
    towards the other side and sets its vertical direction from where on the
    racket the contact was. */
module Collisions {
  import opened Geometry
  import opened Rackets
  import opened Balls

  function BallRect(b: Ball): Rect {
    Rect(b.pos.0, b.pos.1, BALL_SIZE, BALL_SIZE)
  }

  function RacketRect(r: Racket): Rect {
    Rect(r.pos.0, r.pos.1, RACKET_WIDTH, RACKET_HEIGHT)
  }

  /** The part of the ball that overlaps the racket, if any. */
  function Contact(b: Ball, r: Racket): Option<Rect> {
    Intersect(RacketRect(r), BallRect(b))
  }

  /** `overlap` lies on the half of `racket` that faces the court's centre. */
  predicate FacingHalf(side: Side, overlap: Rect, racket: Rect) {
    match side
    case Left => overlap.x >= racket.CentreX()
    case Right => overlap.Right() <= racket.CentreX()
  }

  predicate Hits(b: Ball, r: Racket) {
    Contact(b, r).Some? && FacingHalf(r.side, Contact(b, r).value, RacketRect(r))
  }

  /** The vertical direction after a hit: the offset of the contact's centre
      from the racket's centre, as a fraction of half the racket's height.
      A hit in the middle sends the ball straight across, a hit at the top or
      bottom edge at the steepest slope. */
  function Slope(overlap: Rect, racket: Rect): (s: real)
    requires racket.h > 0.0 && Within(overlap, racket)
    ensures -1.0 <= s <= 1.0
    ensures s == 0.0 <==> overlap.CentreY() == racket.CentreY()
    ensures s == -1.0 <==> overlap.CentreY() == racket.y
    ensures s == 1.0 <==> overlap.CentreY() == racket.Bottom()
    ensures s < 0.0 <==> overlap.CentreY() < racket.CentreY()
  {
    var half := racket.h * 0.5;
    var offset := overlap.CentreY() - racket.CentreY();
    assert -half <= offset <= half;
    DivisionBounds(offset, half);
    offset / half
  }

  lemma DivisionBounds(offset: real, half: real)
    requires half > 0.0 && -half <= offset <= half
    ensures -1.0 <= offset / half <= 1.0
    ensures offset / half == 0.0 <==> offset == 0.0
    ensures offset / half == -1.0 <==> offset == -half
    ensures offset / half == 1.0 <==> offset == half
    ensures offset / half < 0.0 <==> offset < 0.0
  {
  }

  /** One racket's turn in `Pong::update_collisions`. */
  function Rebound(b: Ball, r: Racket): (nb: Ball)
    ensures nb.pos == b.pos && nb.speed == b.speed
    ensures !Hits(b, r) ==> nb == b
    ensures Hits(b, r) ==> Abs(nb.dir.0) == Abs(b.dir.0)
    ensures Hits(b, r) && r.side == Left ==> nb.dir.0 >= 0.0
    ensures Hits(b, r) && r.side == Right ==> nb.dir.0 <= 0.0
    ensures Hits(b, r) ==> nb.dir.1 == Slope(Contact(b, r).value, RacketRect(r))
  {
    var racketRect := RacketRect(r);
    match Contact(b, r)
    case None => b
    case Some(rect) =>
      var racketCx := racketRect.CentreX();
      match r.side
      case Left =>
        if rect.x < racketCx then b
        else b.(dir := (Abs(b.dir.0), Slope(rect, racketRect)))
      case Right =>
        if rect.Right() > racketCx then b
        else b.(dir := (-Abs(b.dir.0), Slope(rect, racketRect)))
  }

  /** A racket hits the ball exactly when they overlap and the ball lies
      entirely on the court side of the racket's centre line. */
  lemma HitMeansBallOnFacingHalf(b: Ball, r: Racket)
    ensures r.side == Left ==>
              (Hits(b, r) <==> Overlap(RacketRect(r), BallRect(b)) && b.pos.0 >= RacketRect(r).CentreX())
    ensures r.side == Right ==>
              (Hits(b, r) <==> Overlap(RacketRect(r), BallRect(b)) && b.pos.0 + BALL_SIZE <= RacketRect(r).CentreX())
  {
  }

  /** The rackets' turns taken in order, the last one last. */
  function ReboundAll(b: Ball, rs: seq<Racket>): (nb: Ball)
    ensures nb.pos == b.pos && nb.speed == b.speed
    ensures IsUnit(b.dir.0) ==> IsUnit(nb.dir.0)
    ensures -1.0 <= b.dir.1 <= 1.0 ==> -1.0 <= nb.dir.1 <= 1.0
    decreases |rs|
  {
    if rs == [] then b
    else Rebound(ReboundAll(b, rs[..|rs| - 1]), rs[|rs| - 1])
  }

  /** `Pong::update_collisions`: the left racket's turn, then the right's. */
  function Collided(b: Ball, rackets: RacketPair): (nb: Ball)
    ensures nb.pos == b.pos && nb.speed == b.speed
    ensures IsUnit(b.dir.0) ==> IsUnit(nb.dir.0)
    ensures -1.0 <= b.dir.1 <= 1.0 ==> -1.0 <= nb.dir.1 <= 1.0
    ensures nb == Rebound(Rebound(b, rackets.0), rackets.1)
    ensures !Hits(b, rackets.0) && !Hits(b, rackets.1) ==> nb == b
  {
    var rs := [rackets.0, rackets.1];
    assert rs[..1] == [rackets.0] && rs[..1][..0] == [];
    assert ReboundAll(b, rs[..1]) == Rebound(b, rackets.0);
    ReboundAll(b, rs)
  }

  /** With both rackets on their own side of the court, no ball touches both,
      so a frame's collisions amount to at most one rebound, which sends the
      ball away from the racket that hit it. */
  lemma CollisionsAtHome(b: Ball, rackets: RacketPair)
    requires rackets.0.side == Left && rackets.0.pos.0 == HomeX(Left)
    requires rackets.1.side == Right && rackets.1.pos.0 == HomeX(Right)
    ensures !(Hits(b, rackets.0) && Hits(b, rackets.1))
    ensures Hits(b, rackets.0) ==> Collided(b, rackets) == Rebound(b, rackets.0)
                                   && Collided(b, rackets).dir.0 >= 0.0
    ensures Hits(b, rackets.1) ==> Collided(b, rackets) == Rebound(b, rackets.1)
                                   && Collided(b, rackets).dir.0 <= 0.0
    ensures Hits(b, rackets.0) || Hits(b, rackets.1) ==> -1.0 <= Collided(b, rackets).dir.1 <= 1.0
  {
  }
}
