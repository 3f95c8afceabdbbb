/**
  Piecewise-linear interpolation through a list of control points, the
  shape of every tone curve in the Curves adjustment. This is the reference
  definition the hand-written curve formulas are proved equal to.
 */
module Interpolation {

  /** A control point (x, y) of a tone curve. */
  datatype Point = Point(x: real, y: real)

  /** Control points are strictly increasing in x (so no segment is empty). */
  predicate Sorted(pts: seq<Point>) {
    forall i, j :: 0 <= i < j < |pts| ==> pts[i].x < pts[j].x
  }

  /** Control points are non-decreasing in y (the curve never goes down). */
  predicate Rising(pts: seq<Point>) {
    forall i, j :: 0 <= i < j < |pts| ==> pts[i].y <= pts[j].y
  }

  /**
    No chord between two control points rises faster than k per unit of x,
    so no segment does either.
   */
  predicate SlopeAtMost(pts: seq<Point>, k: real) {
    forall i, j :: 0 <= i < j < |pts| ==> pts[j].y - pts[i].y <= k * (pts[j].x - pts[i].x)
  }

  function Last(pts: seq<Point>): Point
    requires |pts| > 0
  {
    pts[|pts| - 1]
  }

  /** The straight line through a and b at x: y-min + x-fraction * y-range. */
  function Lerp(a: Point, b: Point, x: real): real
    requires a.x < b.x
  {
    a.y + (x - a.x) / (b.x - a.x) * (b.y - a.y)
  }

  /**
    The curve through pts at x. Segments are chosen left to right; a segment
    covers [start, end), except that the first also takes every x below it
    and the last is closed and takes every x beyond.
   */
  function Interpolate(pts: seq<Point>, x: real): (r: real)
    requires |pts| >= 2 && Sorted(pts)
    ensures x < pts[1].x ==> r == Lerp(pts[0], pts[1], x)
    ensures pts[|pts| - 2].x <= x ==> r == Lerp(pts[|pts| - 2], Last(pts), x)
    decreases |pts|
  {
    if |pts| == 2 || x < pts[1].x then Lerp(pts[0], pts[1], x)
    else Interpolate(pts[1..], x)
  }

  lemma DivideMonotone(u: real, v: real, d: real)
    requires u <= v && 0.0 < d
    ensures u / d <= v / d
  {
    assert u / d * d == u;
    assert v / d * d == v;
  }

  lemma ScaleMonotone(s: real, t: real, k: real)
    requires s <= t && 0.0 <= k
    ensures s * k <= t * k
  {
    assert t * k - s * k == (t - s) * k;
  }

  /** A segment passes through both of its end points. */
  lemma LerpEndpoints(a: Point, b: Point)
    requires a.x < b.x
    ensures Lerp(a, b, a.x) == a.y
    ensures Lerp(a, b, b.x) == b.y
  {
    var d := b.x - a.x;
    assert (b.x - a.x) / d == 1.0;
  }

  /** A rising segment is non-decreasing in x. */
  lemma LerpMonotone(a: Point, b: Point, x1: real, x2: real)
    requires a.x < b.x && a.y <= b.y
    requires x1 <= x2
    ensures Lerp(a, b, x1) <= Lerp(a, b, x2)
  {
    var d := b.x - a.x;
    DivideMonotone(x1 - a.x, x2 - a.x, d);
    ScaleMonotone((x1 - a.x) / d, (x2 - a.x) / d, b.y - a.y);
  }

  /** On its own interval a rising segment stays between its end values. */
  lemma LerpRange(a: Point, b: Point, x: real)
    requires a.x < b.x && a.y <= b.y
    requires a.x <= x <= b.x
    ensures a.y <= Lerp(a, b, x) <= b.y
  {
    LerpEndpoints(a, b);
    LerpMonotone(a, b, a.x, x);
    LerpMonotone(a, b, x, b.x);
  }

  /** A rising segment whose rise is at most k per unit moves by at most k per unit. */
  lemma LerpSlope(a: Point, b: Point, k: real, x1: real, x2: real)
    requires a.x < b.x && b.y - a.y <= k * (b.x - a.x)
    requires x1 <= x2
    ensures Lerp(a, b, x2) - Lerp(a, b, x1) <= k * (x2 - x1)
  {
    var d := b.x - a.x;
    var t := (x2 - x1) / d;
    assert (x2 - a.x) / d - (x1 - a.x) / d == t;
    assert Lerp(a, b, x2) - Lerp(a, b, x1) == t * (b.y - a.y);
    DivideMonotone(0.0, x2 - x1, d);
    ScaleMonotone(b.y - a.y, k * d, t);
    assert t * d == x2 - x1;
    assert k * d * t == k * (x2 - x1);
  }

  lemma TailShape(pts: seq<Point>)
    requires |pts| >= 2 && Sorted(pts)
    ensures Sorted(pts[1..])
    ensures Rising(pts) ==> Rising(pts[1..])
    ensures forall k :: SlopeAtMost(pts, k) ==> SlopeAtMost(pts[1..], k)
    ensures Last(pts[1..]) == Last(pts)
  {
  }

  /** On [first.x, last.x] the curve stays between its first and last y. */
  lemma {:induction false} InterpolateRange(pts: seq<Point>, x: real)
    requires |pts| >= 2 && Sorted(pts) && Rising(pts)
    requires pts[0].x <= x <= Last(pts).x
    ensures pts[0].y <= Interpolate(pts, x) <= Last(pts).y
    decreases |pts|
  {
    if |pts| == 2 || x < pts[1].x {
      LerpRange(pts[0], pts[1], x);
      assert pts[1].y <= Last(pts).y;
    } else {
      TailShape(pts);
      InterpolateRange(pts[1..], x);
      assert pts[0].y <= pts[1].y;
    }
  }

  /** The curve through rising control points is non-decreasing on its domain. */
  lemma {:induction false} InterpolateMonotone(pts: seq<Point>, x1: real, x2: real)
    requires |pts| >= 2 && Sorted(pts) && Rising(pts)
    requires pts[0].x <= x1 <= x2 <= Last(pts).x
    ensures Interpolate(pts, x1) <= Interpolate(pts, x2)
    decreases |pts|
  {
    if |pts| == 2 || x2 < pts[1].x {
      LerpMonotone(pts[0], pts[1], x1, x2);
    } else if x1 < pts[1].x {
      LerpRange(pts[0], pts[1], x1);
      TailShape(pts);
      InterpolateRange(pts[1..], x2);
    } else {
      TailShape(pts);
      InterpolateMonotone(pts[1..], x1, x2);
    }
  }

  /**
    When no chord rises faster than k per unit, neither does the curve: it
    has no jump anywhere on its domain, including at the breakpoints.
   */
  lemma {:induction false} InterpolateSlope(pts: seq<Point>, k: real, x1: real, x2: real)
    requires |pts| >= 2 && Sorted(pts) && SlopeAtMost(pts, k)
    requires pts[0].x <= x1 <= x2 <= Last(pts).x
    ensures Interpolate(pts, x2) - Interpolate(pts, x1) <= k * (x2 - x1)
    decreases |pts|
  {
    assert pts[1].y - pts[0].y <= k * (pts[1].x - pts[0].x);
    if |pts| == 2 || x2 < pts[1].x {
      LerpSlope(pts[0], pts[1], k, x1, x2);
    } else if x1 < pts[1].x {
      var m := pts[1].x;
      LerpSlope(pts[0], pts[1], k, x1, m);
      LerpEndpoints(pts[0], pts[1]);
      TailShape(pts);
      InterpolateAtControlPoint(pts[1..], 0);
      InterpolateSlope(pts[1..], k, m, x2);
      assert pts[1].y - Interpolate(pts, x1) <= k * (m - x1);
      assert Interpolate(pts, x2) - pts[1].y <= k * (x2 - m);
      assert k * (m - x1) + k * (x2 - m) == k * (x2 - x1);
    } else {
      TailShape(pts);
      InterpolateSlope(pts[1..], k, x1, x2);
    }
  }

  /** The curve passes through every one of its control points. */
  lemma {:induction false} InterpolateAtControlPoint(pts: seq<Point>, k: nat)
    requires |pts| >= 2 && Sorted(pts)
    requires k < |pts|
    ensures Interpolate(pts, pts[k].x) == pts[k].y
    decreases |pts|
  {
    LerpEndpoints(pts[0], pts[1]);
    if |pts| == 2 || k == 0 {
    } else {
      assert pts[1].x <= pts[k].x;
      TailShape(pts);
      InterpolateAtControlPoint(pts[1..], k - 1);
    }
  }

  /**
    At a control point, the segment that ends there gives the same value as
    the curve itself (which is computed on the segment that starts there).
   */
  lemma InterpolateContinuous(pts: seq<Point>, k: nat)
    requires |pts| >= 2 && Sorted(pts)
    requires 0 < k < |pts|
    ensures Lerp(pts[k - 1], pts[k], pts[k].x) == Interpolate(pts, pts[k].x)
  {
    LerpEndpoints(pts[k - 1], pts[k]);
    InterpolateAtControlPoint(pts, k);
  }
}
