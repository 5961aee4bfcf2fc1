/** The geometric helpers of the controller: the two guide lines drawn
    from the active pipe's gap, the strict point-above-line test, and the
    out-of-bounds and off-centre tests built on them. The controller's
    reward and termination do not call the last two. */
module Geometry {
  import opened Wrappers
  import opened Entities

  datatype Point = Point(x: real, y: real)

  /** The error `_get_line_points` raises for an unknown line type. */
  datatype GeometryError = InvalidLineType

  /** The two points of the guide line `lineType` ("top" or "bottom") for
      the active pipe: the line starts 500 left of the pipe at the sky
      (top) or at the ground row (bottom) and ends 50 left of the pipe,
      20 above (top) or below (bottom) the gap centre. */
  function LinePoints(active: Pipe, groundY: real, lineType: string): (r: Result<(Point, Point), GeometryError>)
    ensures r.Success? <==> lineType == "top" || lineType == "bottom"
    ensures r.Failure? ==> r.error == InvalidLineType
    ensures r.Success? ==> r.value.1.x - r.value.0.x == 450.0
  {
    var gapY := GapCenterY(active);
    if lineType == "top" then
      Success((Point(active.x - 500.0, 0.0), Point(active.x - 50.0, gapY - 20.0)))
    else if lineType == "bottom" then
      Success((Point(active.x - 500.0, groundY), Point(active.x - 50.0, gapY + 20.0)))
    else
      Failure(InvalidLineType)
  }

  /** Whether (px, py) has a greater y than the line through p1 and p2 at
      px, computed through the slope and intercept; the slope is a
      division by p2.x - p1.x. The line passes through both points, and
      the test equals the point-slope form through p1. */
  predicate IsPointAboveLine(px: real, py: real, p1: Point, p2: Point)
    requires p1.x != p2.x
    ensures px == p1.x && py == p1.y ==> !IsPointAboveLine(px, py, p1, p2)
    ensures px == p2.x && py == p2.y ==> !IsPointAboveLine(px, py, p1, p2)
    ensures IsPointAboveLine(px, py, p1, p2) <==>
              py - p1.y > (p2.y - p1.y) / (p2.x - p1.x) * (px - p1.x)
  {
    var m := (p2.y - p1.y) / (p2.x - p1.x);
    var b := p1.y - m * p1.x;
    py > m * px + b
  }

  /** Sign of the cross product of (p2 - p1) and (q - p1), scaled so that
      it needs no division: positive when q lies to the left of the
      direction p1 -> p2. */
  function Cross(px: real, py: real, p1: Point, p2: Point): real {
    (py - p1.y) * (p2.x - p1.x) - (p2.y - p1.y) * (px - p1.x)
  }

  /** The slope-intercept test agrees with the division-free cross
      product test, whichever way the two points are ordered. */
  lemma AboveIffCross(px: real, py: real, p1: Point, p2: Point)
    requires p1.x != p2.x
    ensures IsPointAboveLine(px, py, p1, p2) <==>
              (if p1.x < p2.x then Cross(px, py, p1, p2) > 0.0 else Cross(px, py, p1, p2) < 0.0)
  {
    var dx := p2.x - p1.x;
    var dy := p2.y - p1.y;
    var m := dy / dx;
    assert m * dx == dy;
    var gap := py - (m * px + (p1.y - m * p1.x));
    assert gap == (py - p1.y) - m * (px - p1.x);
    assert gap * dx == Cross(px, py, p1, p2);
    if dx > 0.0 {
      ProductSign(gap, dx);
    } else {
      ProductSign(gap, -dx);
    }
  }

  lemma ProductSign(a: real, c: real)
    requires c > 0.0
    ensures a > 0.0 <==> a * c > 0.0
    ensures a < 0.0 <==> a * c < 0.0
  {}

  /** The test is strict: a point on the line is not above it. */
  lemma OnLineNotAbove(px: real, py: real, p1: Point, p2: Point)
    requires p1.x != p2.x
    requires Cross(px, py, p1, p2) == 0.0
    ensures !IsPointAboveLine(px, py, p1, p2)
  {
    AboveIffCross(px, py, p1, p2);
  }

  /** The bird is out of bounds when it is not above the top guide line or
      is above the bottom guide line of the active pipe. */
  predicate IsBirdOutOfBounds(bird: Bird, active: Pipe, base: Base)
    ensures bird.x == active.x - 500.0 ==>
              (IsBirdOutOfBounds(bird, active, base) <==> bird.y <= 0.0 || bird.y > base.y)
  {
    var top := LinePoints(active, base.y, "top");
    var bottom := LinePoints(active, base.y, "bottom");
    var run := bird.x - (active.x - 500.0);
    assert run == 0.0 ==>
      (top.value.1.y - top.value.0.y) / 450.0 * run == 0.0
      && (bottom.value.1.y - bottom.value.0.y) / 450.0 * run == 0.0;
    !IsPointAboveLine(bird.x, bird.y, top.value.0, top.value.1)
      || IsPointAboveLine(bird.x, bird.y, bottom.value.0, bottom.value.1)
  }

  /** Out of bounds, stated without slopes: the same two tests as cross
      products against the guide lines, whose x-extent is 450. */
  lemma OutOfBoundsIffOutsideCorridor(bird: Bird, active: Pipe, base: Base)
    ensures var run := bird.x - (active.x - 500.0);
            IsBirdOutOfBounds(bird, active, base) <==>
              (bird.y * 450.0 <= (GapCenterY(active) - 20.0) * run
               || (bird.y - base.y) * 450.0 > (GapCenterY(active) + 20.0 - base.y) * run)
  {
    var top := LinePoints(active, base.y, "top");
    var bottom := LinePoints(active, base.y, "bottom");
    AboveIffCross(bird.x, bird.y, top.value.0, top.value.1);
    AboveIffCross(bird.x, bird.y, bottom.value.0, bottom.value.1);
  }

  /** Between 64 left and 100 right of the active pipe's x (exclusive). */
  predicate InPipeColumn(birdX: real, active: Pipe) {
    active.x - 64.0 < birdX < active.x + 100.0
  }

  function Abs(v: real): real {
    if v < 0.0 then -v else v
  }

  /** The bird is inside the pipe's column but not within 40 of the gap
      centre vertically. */
  predicate IsBirdInPipeButOffCenter(bird: Bird, active: Pipe)
    ensures IsBirdInPipeButOffCenter(bird, active) <==>
              InPipeColumn(bird.x, active) && Abs(bird.y - GapCenterY(active)) >= 40.0
  {
    var gapY := GapCenterY(active);
    var offCenter := !(gapY - 40.0 < bird.y < gapY + 40.0);
    InPipeColumn(bird.x, active) && offCenter
  }
}
