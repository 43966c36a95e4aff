/** The play field's constants, the paddle rectangle and the two pieces of
    paddle geometry: the point-in-rectangle test (game.js:256-262) and the
    clamp of the mouse-driven paddle position (game.js:118-126). */
module Geometry {

  /** `RainbowBrickBreaker.WIDTH` and `HEIGHT` (game.js:82-83). */
  const WIDTH: nat := 465
  const HEIGHT: nat := 465
  /** Rows of blocks (game.js:87). */
  const ROWS: nat := 100
  /** The paddle's fixed size and height on screen (game.js:89-91). */
  const BAR_WIDTH: real := 50.0
  const BAR_HEIGHT: real := 10.0
  const BAR_Y: real := 415.0
  /** The largest left edge the paddle may take. */
  const MAX_BAR_X: real := WIDTH as real - BAR_WIDTH

  /** A rectangle with its left edge `x`, top edge `y`, width and height. */
  datatype Rect = Rect(x: real, y: real, width: real, height: real)

  function Abs(r: real): (a: real)
    ensures a >= 0.0 && (a == r || a == -r)
  {
    if r < 0.0 then -r else r
  }

  /** `hitTestPoint`: whether the point lies in the closed rectangle; its
      edges and corners count as inside. */
  function HitTestPoint(rect: Rect, px: real, py: real): (hit: bool)
    ensures hit ==> rect.width >= 0.0 && rect.height >= 0.0
    ensures hit <==> 0.0 <= px - rect.x <= rect.width && 0.0 <= py - rect.y <= rect.height
  {
    px >= rect.x && px <= rect.x + rect.width && py >= rect.y && py <= rect.y + rect.height
  }

  /** Every point of the boundary of a rectangle of non-negative size is a
      hit, and a point beyond any edge is not. */
  lemma HitTestPointEdges(rect: Rect, px: real, py: real)
    requires rect.width >= 0.0 && rect.height >= 0.0
    ensures rect.x <= px <= rect.x + rect.width ==>
              HitTestPoint(rect, px, rect.y) && HitTestPoint(rect, px, rect.y + rect.height)
    ensures rect.y <= py <= rect.y + rect.height ==>
              HitTestPoint(rect, rect.x, py) && HitTestPoint(rect, rect.x + rect.width, py)
    ensures px < rect.x || px > rect.x + rect.width || py < rect.y || py > rect.y + rect.height ==>
              !HitTestPoint(rect, px, py)
  {
  }

  /** The paddle at left edge `barX`. */
  function Bar(barX: real): Rect
  {
    Rect(barX, BAR_Y, BAR_WIDTH, BAR_HEIGHT)
  }

  /** The mouse handler's clamp of the requested paddle position `newBarX`:
      the result is always a legal position, and a legal request is kept. */
  function ClampBarX(newBarX: real): (x: real)
    ensures 0.0 <= x <= MAX_BAR_X
    ensures 0.0 <= newBarX <= MAX_BAR_X ==> x == newBarX
    ensures x == newBarX || x == 0.0 || x == MAX_BAR_X
  {
    if newBarX > MAX_BAR_X then MAX_BAR_X
    else if newBarX < 0.0 then 0.0
    else newBarX
  }

  /** The clamped position is the legal position nearest to the request. */
  lemma ClampBarXNearest(newBarX: real, legal: real)
    requires 0.0 <= legal <= MAX_BAR_X
    ensures Abs(ClampBarX(newBarX) - newBarX) <= Abs(legal - newBarX)
  {
  }

  /** Clamping an already clamped position changes nothing. */
  lemma ClampBarXIdempotent(newBarX: real)
    ensures ClampBarX(ClampBarX(newBarX)) == ClampBarX(newBarX)
  {
  }
}
