/** A player's racket: its side and the position of its top-left corner.
    It only ever moves vertically, along a track that keeps it inside the
    court. */
module Rackets {
  import opened Geometry

  datatype Racket = Racket(side: Side, pos: (real, real))

  /** The left racket (`.0`) and the right one (`.1`). */
  datatype RacketPair = RacketPair(0: Racket, 1: Racket)

  /** The lowest position of a racket's top edge that keeps it in the court. */
  const TRACK_END: real := WINDOW_HEIGHT - RACKET_HEIGHT

  predicate InTrack(r: Racket) {
    0.0 <= r.pos.1 <= TRACK_END
  }

  /** The fixed horizontal position of each side's racket. */
  function HomeX(side: Side): real {
    match side
    case Left => RACKET_MARGIN
    case Right => WINDOW_WIDTH - RACKET_MARGIN - RACKET_WIDTH
  }

  /** A racket of `side`, centred vertically, RACKET_MARGIN away from its own
      edge of the court. */
  function New(side: Side): (r: Racket)
    ensures r.side == side && r.pos.0 == HomeX(side)
    ensures side == Left ==> r.pos.0 == RACKET_MARGIN
    ensures side == Right ==> WINDOW_WIDTH - (r.pos.0 + RACKET_WIDTH) == RACKET_MARGIN
    ensures r.pos.1 + RACKET_HEIGHT * 0.5 == WINDOW_HEIGHT * 0.5
    ensures InTrack(r)
  {
    var x := match side
      case Left => RACKET_MARGIN
      case Right => WINDOW_WIDTH - RACKET_MARGIN - RACKET_WIDTH;
    Racket(side, (x, WINDOW_HEIGHT * 0.5 - RACKET_HEIGHT * 0.5))
  }

  /** The racket after moving at `speed` for `ft` seconds, stopped at the
      ends of its track. */
  function Slid(r: Racket, speed: real, ft: FrameTime): (r': Racket)
    ensures InTrack(r')
    ensures r'.side == r.side && r'.pos.0 == r.pos.0
    ensures 0.0 <= r.pos.1 + speed * ft <= TRACK_END ==> r'.pos.1 == r.pos.1 + speed * ft
    ensures r.pos.1 + speed * ft < 0.0 ==> r'.pos.1 == 0.0
    ensures r.pos.1 + speed * ft > TRACK_END ==> r'.pos.1 == TRACK_END
  {
    r.(pos := (r.pos.0, Clamp(r.pos.1 + speed * ft, 0.0, TRACK_END)))
  }

  /** `Racket::slide`: one frame of vertical movement. */
  method Slide(r: Racket, speed: real, ft: FrameTime) returns (r': Racket)
    ensures r' == Slid(r, speed, ft)
  {
    r' := r;
    var posY := r.pos.1 + speed * ft;
    if posY < 0.0 {
      r' := r'.(pos := (r'.pos.0, 0.0));
    } else if posY + RACKET_HEIGHT > WINDOW_HEIGHT {
      r' := r'.(pos := (r'.pos.0, WINDOW_HEIGHT - RACKET_HEIGHT));
    } else {
      r' := r'.(pos := (r'.pos.0, posY));
    }
  }
}
