/**
 * The value types the generator computes with: Unity's Vector2 and Rect, and
 * the conversions from floating point to integers that the code uses
 * (Mathf.CeilToInt, the (int) cast and C#'s integer division).
 * Coordinates are exact reals; IEEE rounding is not modelled.
 */
module Geometry {

  /** Unity's Vector2, by value. */
  datatype Vec2 = Vec2(x: real, y: real) {
    function Plus(o: Vec2): Vec2 { Vec2(x + o.x, y + o.y) }
    function Minus(o: Vec2): Vec2 { Vec2(x - o.x, y - o.y) }
    function Scale(k: real): Vec2 { Vec2(x * k, y * k) }
  }

  function Abs(v: real): (r: real)
    ensures r >= 0.0 && (r == v || r == -v)
  {
    if v < 0.0 then -v else v
  }

  /** True when v has no fractional part. */
  predicate IsIntegral(v: real) {
    v.Floor as real == v
  }

  /** Mathf.CeilToInt: the least integer not below v. */
  function Ceil(v: real): (c: int)
    ensures v <= c as real < v + 1.0
  {
    -((-v).Floor)
  }

  /** The C# cast (int)v: truncation toward zero. */
  function Trunc(v: real): (t: int)
    ensures Abs(t as real) <= Abs(v) < Abs(t as real) + 1.0
    ensures v >= 0.0 ==> t >= 0
    ensures v <= 0.0 ==> t <= 0
  {
    if v >= 0.0 then v.Floor else -((-v).Floor)
  }

  /** Truncating a whole number gives it back. */
  lemma TruncWhole(n: int)
    ensures Trunc(n as real) == n
  {
  }

  function IntAbs(v: int): (r: nat)
    ensures r == v || r == -v
  {
    if v < 0 then -v else v
  }

  /**
   * C#'s integer division a / b by a positive divisor: it truncates toward
   * zero, so the magnitude is rounded down and the sign of a is kept.
   */
  function TruncDiv(a: int, b: int): (q: int)
    requires b > 0
    ensures IntAbs(q) == IntAbs(a) / b
    ensures a >= 0 ==> q >= 0
    ensures a <= 0 ==> q <= 0
  {
    if a >= 0 then DivNonNegative(a, b); a / b else DivNonNegative(-a, b); -((-a) / b)
  }

  /** A non-negative dividend over a positive divisor gives a non-negative quotient. */
  lemma DivNonNegative(a: int, b: int)
    requires a >= 0 && b > 0
    ensures a / b >= 0
  {
  }

  /** Scaling a non-negative a by a factor in [-1, 1] stays within [-a, a]. */
  lemma MulUnitBounds(a: real, c: real)
    requires a >= 0.0 && -1.0 <= c <= 1.0
    ensures -a <= a * c <= a
    ensures c >= 0.0 ==> 0.0 <= a * c
  {
    MulNonNegative(a, 1.0 - c);
    MulNonNegative(a, 1.0 + c);
    if c >= 0.0 {
      MulNonNegative(a, c);
    }
  }

  lemma MulNonNegative(a: real, b: real)
    requires a >= 0.0 && b >= 0.0
    ensures a * b >= 0.0
  {
  }

  /**
   * Unity's Rect, stored as its minimum corner and its size (either of which
   * may be negative). The accessors and setters below follow Unity's
   * definitions: xMax is x + width, setting xMin keeps xMax, setting xMax keeps
   * xMin, setting the centre or the position keeps the size.
   */
  datatype Rect = Rect(x: real, y: real, width: real, height: real) {
    function XMin(): real { x }
    function YMin(): real { y }
    function XMax(): real { x + width }
    function YMax(): real { y + height }
    function Position(): Vec2 { Vec2(x, y) }
    function Size(): Vec2 { Vec2(width, height) }
    function Center(): Vec2 { Vec2(x + width / 2.0, y + height / 2.0) }
    function Min(): Vec2 { Vec2(XMin(), YMin()) }
    function Max(): Vec2 { Vec2(XMax(), YMax()) }

    /** Rect.Overlaps(other): strict, so rectangles that only touch do not overlap. */
    predicate Overlaps(o: Rect) {
      o.XMax() > XMin() && o.XMin() < XMax() && o.YMax() > YMin() && o.YMin() < YMax()
    }

    /** Rect.Contains(point): the half-open box [xMin, xMax) x [yMin, yMax). */
    predicate Contains(p: Vec2) {
      p.x >= XMin() && p.x < XMax() && p.y >= YMin() && p.y < YMax()
    }

    function WithX(v: real): Rect { this.(x := v) }
    function WithY(v: real): Rect { this.(y := v) }
    function WithWidth(v: real): Rect { this.(width := v) }
    function WithHeight(v: real): Rect { this.(height := v) }
    function WithPosition(p: Vec2): Rect { this.(x := p.x, y := p.y) }
    function WithSize(s: Vec2): Rect { this.(width := s.x, height := s.y) }
    function WithCenter(c: Vec2): Rect { this.(x := c.x - width / 2.0, y := c.y - height / 2.0) }
    function WithXMin(v: real): Rect { this.(x := v, width := XMax() - v) }
    function WithYMin(v: real): Rect { this.(y := v, height := YMax() - v) }
    function WithXMax(v: real): Rect { this.(width := v - x) }
    function WithYMax(v: real): Rect { this.(height := v - y) }
    function WithMin(v: Vec2): Rect { WithXMin(v.x).WithYMin(v.y) }
    function WithMax(v: Vec2): Rect { WithXMax(v.x).WithYMax(v.y) }

    /** Translation by d, as `position += d` does. */
    function Moved(d: Vec2): Rect { WithPosition(Position().Plus(d)) }
  }

  /** new Rect(): all four components zero. */
  const ZeroRect := Rect(0.0, 0.0, 0.0, 0.0)

  lemma OverlapsSymmetric(a: Rect, b: Rect)
    ensures a.Overlaps(b) <==> b.Overlaps(a)
  {
  }
}
