/**
  The two hard-coded per-channel tone curves of magnus_pixbuf_proc, written
  as the C code computes them but over exact reals, and the 8-bit sample map
  that truncates a curve value back to a byte.
 */
module ToneCurves {
  import opened Interpolation

  /** An 8-bit channel sample (C `unsigned char`). */
  newtype byte = x: int | 0 <= x < 0x100

  /**
    Curve 1, for light colours: breakpoint (170, 20). Samples below the
    breakpoint are squeezed into [0, 20); the rest are spread over [20, 255].
   */
  function Curve1(x: real): (r: real)
    ensures r < 20.0 <==> x < 170.0
    ensures 0.0 <= x <= 255.0 ==> 0.0 <= r <= 255.0
  {
    if x < 170.0 then 0.0 + (x / 170.0) * 20.0
    else 20.0 + ((x - 170.0) / (255.0 - 170.0)) * (255.0 - 20.0)
  }

  /**
    Curve 2, for mid-range colours: breakpoints (120, 20) and (170, 220).
    Samples in [120, 170) are stretched over [20, 220); darker ones end below
    20 and lighter ones at 220 or above.
   */
  function Curve2(x: real): (r: real)
    ensures r < 20.0 <==> x < 120.0
    ensures r < 220.0 <==> x < 170.0
    ensures 0.0 <= x <= 255.0 ==> 0.0 <= r <= 255.0
  {
    if x < 120.0 then 0.0 + (x / 120.0) * 20.0
    else if x < 170.0 then 20.0 + ((x - 120.0) / (170.0 - 120.0)) * (220.0 - 20.0)
    else 220.0 + ((x - 170.0) / (255.0 - 170.0)) * (255.0 - 220.0)
  }

  /** The control points of curve 1, anchored at black and white. */
  const LightPoints: seq<Point> := [Point(0.0, 0.0), Point(170.0, 20.0), Point(255.0, 255.0)]

  /** The control points of curve 2, anchored at black and white. */
  const MidPoints: seq<Point> :=
    [Point(0.0, 0.0), Point(120.0, 20.0), Point(170.0, 220.0), Point(255.0, 255.0)]

  lemma ControlPointsShape()
    ensures Sorted(LightPoints) && Rising(LightPoints)
    ensures Sorted(MidPoints) && Rising(MidPoints)
  {
  }

  /** No chord of curve 1's control points is steeper than 47/17. */
  lemma LightPointsSlope()
    ensures SlopeAtMost(LightPoints, 47.0 / 17.0)
  {
    forall i, j | 0 <= i < j < |LightPoints|
      ensures LightPoints[j].y - LightPoints[i].y <= 47.0 / 17.0 * (LightPoints[j].x - LightPoints[i].x)
    {
      assert i == 0 || i == 1;
      assert j == 1 || j == 2;
    }
  }

  /** No chord of curve 2's control points is steeper than 4. */
  lemma MidPointsSlope()
    ensures SlopeAtMost(MidPoints, 4.0)
  {
    forall i, j | 0 <= i < j < |MidPoints|
      ensures MidPoints[j].y - MidPoints[i].y <= 4.0 * (MidPoints[j].x - MidPoints[i].x)
    {
      assert 0 <= i <= 2 && 1 <= j <= 3;
    }
  }

  /** Curve 1 is the interpolation through its control points, at every x. */
  lemma Curve1IsInterpolation(x: real)
    ensures Sorted(LightPoints)
    ensures Curve1(x) == Interpolate(LightPoints, x)
  {
    ControlPointsShape();
    assert LightPoints[1..] == [Point(170.0, 20.0), Point(255.0, 255.0)];
  }

  /** Curve 2 is the interpolation through its control points, at every x. */
  lemma Curve2IsInterpolation(x: real)
    ensures Sorted(MidPoints)
    ensures Curve2(x) == Interpolate(MidPoints, x)
  {
    ControlPointsShape();
    assert MidPoints[1..] == [Point(120.0, 20.0), Point(170.0, 220.0), Point(255.0, 255.0)];
    assert MidPoints[1..][1..] == [Point(170.0, 220.0), Point(255.0, 255.0)];
  }

  /** Curve 1 maps [0, 255] into [0, 255]. */
  lemma Curve1Range(x: real)
    requires 0.0 <= x <= 255.0
    ensures 0.0 <= Curve1(x) <= 255.0
  {
    ControlPointsShape();
    Curve1IsInterpolation(x);
    InterpolateRange(LightPoints, x);
  }

  /** Curve 2 maps [0, 255] into [0, 255]. */
  lemma Curve2Range(x: real)
    requires 0.0 <= x <= 255.0
    ensures 0.0 <= Curve2(x) <= 255.0
  {
    ControlPointsShape();
    Curve2IsInterpolation(x);
    InterpolateRange(MidPoints, x);
  }

  /** Curve 1 is non-decreasing on [0, 255]. */
  lemma Curve1Monotone(x1: real, x2: real)
    requires 0.0 <= x1 <= x2 <= 255.0
    ensures Curve1(x1) <= Curve1(x2)
  {
    ControlPointsShape();
    Curve1IsInterpolation(x1);
    Curve1IsInterpolation(x2);
    InterpolateMonotone(LightPoints, x1, x2);
  }

  /** Curve 2 is non-decreasing on [0, 255], across all three segments. */
  lemma Curve2Monotone(x1: real, x2: real)
    requires 0.0 <= x1 <= x2 <= 255.0
    ensures Curve2(x1) <= Curve2(x2)
  {
    ControlPointsShape();
    Curve2IsInterpolation(x1);
    Curve2IsInterpolation(x2);
    InterpolateMonotone(MidPoints, x1, x2);
  }

  /** Curve 1 hits its anchors and its breakpoint exactly. */
  lemma Curve1ControlPoints()
    ensures Curve1(0.0) == 0.0 && Curve1(170.0) == 20.0 && Curve1(255.0) == 255.0
  {
  }

  /** Curve 2 hits its anchors and both breakpoints exactly. */
  lemma Curve2ControlPoints()
    ensures Curve2(0.0) == 0.0 && Curve2(120.0) == 20.0
    ensures Curve2(170.0) == 220.0 && Curve2(255.0) == 255.0
  {
  }

  /**
    Curve 1 is continuous on [0, 255], the breakpoint at 170 included: it
    never falls, and never rises faster than its steepest segment, 235 over
    85 = 47/17 per unit. So a sample just below 170 maps to just below 20.
   */
  lemma Curve1Continuous(x1: real, x2: real)
    requires 0.0 <= x1 <= x2 <= 255.0
    ensures 0.0 <= Curve1(x2) - Curve1(x1) <= 47.0 / 17.0 * (x2 - x1)
  {
    Curve1Monotone(x1, x2);
    ControlPointsShape();
    Curve1IsInterpolation(x1);
    Curve1IsInterpolation(x2);
    LightPointsSlope();
    InterpolateSlope(LightPoints, 47.0 / 17.0, x1, x2);
  }

  /**
    Curve 2 is continuous on [0, 255], both breakpoints included: it never
    falls, and never rises faster than its middle segment, 200 over 50 = 4
    per unit.
   */
  lemma Curve2Continuous(x1: real, x2: real)
    requires 0.0 <= x1 <= x2 <= 255.0
    ensures 0.0 <= Curve2(x2) - Curve2(x1) <= 4.0 * (x2 - x1)
  {
    Curve2Monotone(x1, x2);
    ControlPointsShape();
    Curve2IsInterpolation(x1);
    Curve2IsInterpolation(x2);
    MidPointsSlope();
    InterpolateSlope(MidPoints, 4.0, x1, x2);
  }

  /** The curves a non-zero selector can pick. */
  datatype Curve = Light | Mid

  /** The control points of a curve. */
  function Points(c: Curve): seq<Point> {
    match c
    case Light => LightPoints
    case Mid => MidPoints
  }

  /** A curve's value at a sample, as its C function computes it. */
  function Eval(c: Curve, x: real): real {
    match c
    case Light => Curve1(x)
    case Mid => Curve2(x)
  }

  lemma EvalIsInterpolation(c: Curve, x: real)
    ensures |Points(c)| >= 2 && Sorted(Points(c)) && Rising(Points(c))
    ensures Eval(c, x) == Interpolate(Points(c), x)
  {
    ControlPointsShape();
    match c
    case Light => Curve1IsInterpolation(x);
    case Mid => Curve2IsInterpolation(x);
  }

  /** Both curves map [0, 255] into [0, 255]. */
  lemma EvalRange(c: Curve, x: real)
    requires 0.0 <= x <= 255.0
    ensures 0.0 <= Eval(c, x) <= 255.0
  {
    match c
    case Light => Curve1Range(x);
    case Mid => Curve2Range(x);
  }

  /**
    One channel sample through a curve: the C assignment of the `double`
    result to `unsigned char` truncates, which for values in [0, 255] is the
    floor. The stored byte is the whole part of the curve value.
   */
  function MapByte(c: Curve, b: byte): (r: byte)
    ensures r as real <= Eval(c, b as real) < r as real + 1.0
  {
    var y := Eval(c, b as real);
    EvalRange(c, b as real);
    y.Floor as byte
  }

  /** The stored byte is the truncated value of the control-point curve. */
  lemma MapByteIsInterpolation(c: Curve, b: byte)
    ensures MapByte(c, b) as real <= Interpolate(Points(c), b as real) < MapByte(c, b) as real + 1.0
  {
    EvalIsInterpolation(c, b as real);
  }

  /** Truncating a non-decreasing curve keeps it non-decreasing on bytes. */
  lemma MapByteMonotone(c: Curve, b1: byte, b2: byte)
    requires b1 <= b2
    ensures MapByte(c, b1) <= MapByte(c, b2)
  {
    EvalIsInterpolation(c, b1 as real);
    EvalIsInterpolation(c, b2 as real);
    InterpolateMonotone(Points(c), b1 as real, b2 as real);
  }

  /** The control points are integral, so truncation keeps them exact. */
  lemma MapByteControlPoints()
    ensures MapByte(Light, 0) == 0 && MapByte(Light, 170) == 20 && MapByte(Light, 255) == 255
    ensures MapByte(Mid, 0) == 0 && MapByte(Mid, 120) == 20
    ensures MapByte(Mid, 170) == 220 && MapByte(Mid, 255) == 255
  {
    Curve1ControlPoints();
    Curve2ControlPoints();
  }

  /**
    Applying a curve twice is not the same as applying it once: curve 1
    takes 170 to 20 and then 20 to 2 (20 * 20 / 170 = 2.35...).
   */
  lemma MapByteNotIdempotent()
    ensures MapByte(Light, MapByte(Light, 170)) != MapByte(Light, 170)
  {
    Curve1ControlPoints();
    assert MapByte(Light, 170) == 20;
    assert Curve1(20.0) == 400.0 / 170.0;
  }
}
