# Pong: a verified model of the game simulation

This project models the simulation core of a two-player Pong game written in
Rust on top of macroquad (`src/main.rs`). It covers the two rackets, which slide
along a vertical track. It covers the ball, which moves, bounces off the top and
bottom walls and speeds up. It covers the rebound of the ball off a racket,
scoring, and the four-state match state machine (`NewRound(side)`, `Playing`,
`Winner(side)`, `Exit`) that one call of `Pong::update` advances by one frame.

Layout, one module per file:

- `geometry.dfy` (`Geometry`): the game's constants, `Side`, rectangles, the
  rectangle intersection and `Clamp`.
- `rackets.dfy` (`Rackets`): `Racket::new` and `Racket::slide`.
- `balls.dfy` (`Balls`): `Ball::new` and `Ball::update`.
- `collisions.dfy` (`Collisions`): the rebound rule of `Pong::update_collisions`.
- `game_rules.dfy` (`GameRules`): a match as a value; `Pong::new`,
  `update_scores` and `update` as functions; the invariant of reachable matches;
  lemmas over one frame and over any sequence of frames.
- `game.dfy` (`Game`): the class `Pong`. Its fields are updated in place by
  methods that follow the Rust code step by step. Each method is proved to do
  what the functions of `GameRules` describe.

Rackets and balls are values owned by the match, as in Rust. `Racket::slide`
and `Ball::update` take the value and return the updated one. `Pong` is a
class whose methods `modify this`, as `&mut self` does.

The outside world enters each frame as a `Frame` value with four parts:
- the keys held (Q, W, S, Up, Down, Space);
- the frame time `ft`, a real number that is never negative;
- two clock bits that stand for the low bit of the microsecond count `(time::get_time() * 1e6) as i32` that `Ball::new` reads.

Numbers are `real`, not `f32`. Scores are unbounded integers.

How a frame runs, as the code has it:
- The match has four states. A point is added inside `update_scores`, in the
  same frame in which the ball leaves the court.
- The winner screen waits only for Space, which starts a new match.
- A new round serves the ball towards the side that conceded the point.
  `NewRound(Left)` follows a ball lost past the left edge, and
  `Ball::new(Some(Left))` sets `dir.0 = -1`.
- A hit is checked against the whole racket rectangle and counts only when the
  overlap lies on the racket's court-facing half. The ball's direction is not
  looked at before the test.
- In a frame of play, the rackets move first, then the ball moves and bounces
  off the walls, then the collisions are resolved, then the score is updated.
- W is applied before S (and Up before Down), and each move stops at the end
  of the track. Holding both keys therefore does not always cancel out
  (`GameRules.BothKeysHeld`).

## Model

| member | source | states |
|---|---|---|
| `Geometry.Clamp` | src/main.rs:65-71 | the result lies in [lo, hi], equals the input when the input is already in range, lo when the input is below lo and hi when it is above hi |
| `Geometry.ClampIsNearest` | src/main.rs:119-125 | no point of [lo, hi] is closer to the input than the clamped value |
| `Geometry.Intersect` | src/main.rs:194 | the intersection, when it exists, lies inside both rectangles with non-negative size; for rectangles of non-negative size it exists exactly when they overlap |
| `Geometry.IntersectIsCommonPart` | src/main.rs:194 | a point is in both rectangles if and only if it is in their intersection |
| `Geometry.IntersectCommutes` | src/main.rs:194 | intersecting the racket with the ball gives the same result as the other way round |
| `Rackets.New` | src/main.rs:51-61 | a new racket has the given side, is vertically centred and inside its track; the left one is RACKET_MARGIN from the left edge, the right one RACKET_MARGIN from the right edge |
| `Rackets.Slid` | src/main.rs:63-72 | after sliding, the racket is in [0, WINDOW_HEIGHT − RACKET_HEIGHT] whatever the speed and start; side and x are unchanged; in range it moves by exactly speed × ft, otherwise it stops at the end it passed |
| `Rackets.Slide` | src/main.rs:63-72 | the step-by-step method of `Racket::slide` yields exactly the racket `Slid` describes |
| `Balls.RandomDir` | src/main.rs:95 | the clock bit gives +1 when set and −1 when clear |
| `Balls.New` | src/main.rs:92-109 | the new ball is centred with speed BALL_INIT_SPEED; dir.0 is −1 for Some(Left), +1 for Some(Right), chosen by the bit for None; both direction components are ±1 |
| `Balls.Moved` | src/main.rs:111-128 | after a frame, y is in [0, WINDOW_HEIGHT − BALL_SIZE]; x advances by dir.0 × speed × ft at the speed from before the frame; y is the free move when that stays in the court, exactly 0 when it would pass the top wall and exactly WINDOW_HEIGHT − BALL_SIZE when it would pass the bottom wall; dir.0 is kept; dir.1 is negated exactly when the free move would leave the court vertically; speed grows by exactly ft × BALL_ACCEL, so it never decreases |
| `Balls.Update` | src/main.rs:111-128 | the step-by-step method of `Ball::update` yields exactly the ball `Moved` describes |
| `Collisions.Slope` | src/main.rs:215-218 | the new vertical direction is in [−1, 1]; it is 0 exactly for a hit at the racket's centre, −1 exactly at its top edge, +1 exactly at its bottom edge, and negative exactly above the centre |
| `Collisions.Rebound` | src/main.rs:189-219 | one racket's turn leaves position and speed alone; without a hit on the facing half the ball is unchanged; after a left hit dir.0 ≥ 0, after a right hit dir.0 ≤ 0, with the same magnitude; dir.1 becomes the slope of the contact |
| `Collisions.HitMeansBallOnFacingHalf` | src/main.rs:194-213 | a left racket hits exactly when it overlaps the ball and the ball's left edge is at or right of the racket's centre line; a right racket hits exactly when they overlap and the ball's right edge is at or left of it |
| `Collisions.ReboundAll` | src/main.rs:189-219 | taking the rackets' turns in order keeps position and speed, keeps dir.0 at ±1 and keeps dir.1 in [−1, 1] |
| `Collisions.Collided` | src/main.rs:188-220 | update_collisions is the left racket's turn followed by the right's; with no hit the ball is unchanged; position and speed are kept, dir.0 stays ±1 and dir.1 stays in [−1, 1] |
| `Collisions.CollisionsAtHome` | src/main.rs:188-220 | with the rackets at their own sides no ball is hit by both; a left hit leaves dir.0 ≥ 0, a right hit dir.0 ≤ 0, and dir.1 in [−1, 1] |
| `GameRules.Initial` | src/main.rs:157-164 | a new match has scores (0, 0), is Playing and satisfies the invariant |
| `GameRules.Scored` | src/main.rs:170-186 | a ball past the left edge adds exactly 1 to the right score, and the state becomes Winner(Right) if that score reaches WIN_SCORE, else NewRound(Left); past the right edge the same holds for the left score and Left; a ball in the court changes nothing |
| `GameRules.Steered` | src/main.rs:233-245 | a racket moved by its keys keeps its side and x; with no key it stays where it is; the up key alone slides it by −RACKET_SPEED × ft and the down key alone by +RACKET_SPEED × ft (so, from inside the track, up never moves it down and down never moves it up); with both keys it takes the up slide and then the down slide; whenever a key is held it ends in its track |
| `GameRules.StepKeepsInv` | src/main.rs:222-256 | one frame keeps the invariant: rackets at home and in track, ball between the walls, dir.0 = ±1, dir.1 in [−1, 1], speed ≥ BALL_INIT_SPEED, scores ≤ WIN_SCORE and < WIN_SCORE while Playing or in NewRound, the winner's score at WIN_SCORE, and the ball in the court while Playing |
| `GameRules.RunKeepsInv` | src/main.rs:222-256 | any sequence of frames keeps the invariant |
| `GameRules.ReachableMatches` | src/main.rs:157-256 | from a new match, after any frames, scores are ≤ WIN_SCORE, below it in Playing and NewRound, rackets are in their track and the ball between the walls |
| `GameRules.QuitExits` | src/main.rs:223-225 | Q moves any state to Exit on that frame and changes nothing else |
| `GameRules.ExitIsFinal` | src/main.rs:255 | once in Exit, the match stays as it is over any frames |
| `GameRules.NewRoundServes` | src/main.rs:228-231 | NewRound(s) replaces the ball with `Ball::new(Some(s))`, heading towards s at BALL_INIT_SPEED, goes to Playing, and keeps rackets and scores |
| `GameRules.WinnerWaitsForSpace` | src/main.rs:250-254 | in Winner, Space resets to a new match with scores (0, 0) that is Playing; without Space nothing changes |
| `GameRules.PlayingFrameScores` | src/main.rs:232-249 | in a frame of play, a ball moved past the left edge gives Right one point and Winner(Right) exactly when that point is the WIN_SCORE-th, else NewRound(Left); the same holds for the right edge and Left; otherwise scores are kept and play goes on |
| `GameRules.ScoresNeverDecrease` | src/main.rs:170-186 | a frame keeps the scores or adds one point to one side, unless Space on the winner screen starts a new match |
| `GameRules.IdleFrameIsStill` | src/main.rs:232-249 | in play, a frame with no time and no key leaves rackets, ball position and scores alone and stays Playing |
| `GameRules.BothKeysHeld` | src/main.rs:233-245 | holding both keys of a racket in its track ends at the up slide followed by the down slide, which is the lower of its start and one frame's travel from the top; it stays put exactly when it started at least one frame's travel from the top or at the bottom of the track |
| `GameRules.PlayingFrameSteers` | src/main.rs:232-245 | in a frame of play W and S steer the left racket and Up and Down the right one, as `Steered` describes |
| `GameRules.OppositeKeysAtTop` | src/main.rs:233-238 | a left racket at the top holding W and S for 0.1 s ends 50 units down: the two moves do not cancel |
| `Game.Pong.constructor` | src/main.rs:157-164 | the object is the match `Initial` describes and satisfies the invariant |
| `Game.Pong.Reset` | src/main.rs:166-168 | every field becomes that of a new match: scores (0, 0), Playing |
| `Game.Pong.UpdateScores` | src/main.rs:170-186 | the fields change as `Scored` describes: one point for the side opposite the edge crossed, Winner or NewRound accordingly, and nothing else changes |
| `Game.Pong.UpdateCollisions` | src/main.rs:188-220 | the loop over both rackets leaves the ball as `Collided` describes and all other fields unchanged |
| `Game.Pong.Update` | src/main.rs:222-257 | the fields change as `Step` describes for the frame, and a valid match stays valid |
| `Game.Pong.State` | src/main.rs:289-291 | returns the state; in a valid match, Playing and NewRound come with both scores below WIN_SCORE and Winner with the winner's score at WIN_SCORE |

## Left out

- Drawing (`Racket::draw`, `Ball::draw`, `draw_scores`, `draw_winner`, `draw`, `draw_text_center`, `draw_fps`) and `fmt::Display for Side`: presentation only.
- `window_conf`, `main`, the camera, the render target, the texture and the async frame loop: macroquad plumbing with no game logic.
- `input::is_key_down` and `time::get_frame_time` become fields of `Frame`.
- The clock-based randomness of `Ball::new` becomes two bits given with each frame. How the clock value is turned into a bit is not modelled.
- `f32` arithmetic and rounding: all quantities are reals.
- macroquad's `Rect::intersect` is not part of this model. `Geometry.Intersect` is an explicit definition in its place: the larger of the left and top edges, the smaller of the right and bottom edges, and no intersection when right < left or bottom < top. Rectangles that only touch count as intersecting.
- `Game.Pong.UpdateScores`: does not model 32-bit wrap-around of the `i32` scores, because reachable scores never exceed WIN_SCORE (`GameRules.ReachableMatches`).
- `Game.Pong.Reset`: assigns the four fields instead of replacing the whole object, which is the same thing for an object with no other state.
