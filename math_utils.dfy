/**
 * MathUtils: vector rounding, the segment intersection test, triangle area,
 * the point-in-triangle test and the component clamp, over exact reals.
 */
module MathUtils {
  import opened Geometry

  /** Unity's Vector3, by value. */
  datatype Vec3 = Vec3(x: real, y: real, z: real)

  /** Vec2ToInt: each component cast with (int), i.e. truncated toward zero. */
  function Vec2ToInt(v: Vec2): (r: Vec2)
    ensures IsIntegral(r.x) && IsIntegral(r.y)
    ensures Abs(r.x) <= Abs(v.x) < Abs(r.x) + 1.0
    ensures Abs(r.y) <= Abs(v.y) < Abs(r.y) + 1.0
    ensures r.x * v.x >= 0.0 && r.y * v.y >= 0.0
  {
    Vec2(Trunc(v.x) as real, Trunc(v.y) as real)
  }

  /** Vec2ToCeilInt: each component rounded up to an integer. */
  function Vec2ToCeilInt(v: Vec2): (r: Vec2)
    ensures IsIntegral(r.x) && IsIntegral(r.y)
    ensures v.x <= r.x < v.x + 1.0
    ensures v.y <= r.y < v.y + 1.0
  {
    Vec2(Ceil(v.x) as real, Ceil(v.y) as real)
  }

  /** The common denominator of both parameters in LineIntersects. */
  function Denominator(p1: Vec2, p2: Vec2, p3: Vec2, p4: Vec2): real {
    var a := p2.Minus(p1);
    var b := p3.Minus(p4);
    a.y * b.x - a.x * b.y
  }

  /** alphaNumerator: alpha = AlphaNumerator / Denominator is the parameter along p1 -> p2. */
  function AlphaNumerator(p1: Vec2, p2: Vec2, p3: Vec2, p4: Vec2): real {
    var b := p3.Minus(p4);
    var c := p1.Minus(p3);
    b.y * c.x - b.x * c.y
  }

  /** betaNumerator: beta = BetaNumerator / Denominator is the parameter along p3 -> p4. */
  function BetaNumerator(p1: Vec2, p2: Vec2, p3: Vec2, p4: Vec2): real {
    var a := p2.Minus(p1);
    var c := p1.Minus(p3);
    a.x * c.y - a.y * c.x
  }

  /** The fraction n / d lies in [0, 1]. */
  predicate InUnitInterval(n: real, d: real)
    requires d != 0.0
  {
    0.0 <= n / d <= 1.0
  }

  /** The sign of a product with a non-zero factor d. */
  lemma ProductSign(x: real, d: real)
    requires d != 0.0
    ensures d > 0.0 ==> (0.0 <= x * d <==> 0.0 <= x)
    ensures d < 0.0 ==> (0.0 <= x * d <==> x <= 0.0)
  {
    if x < 0.0 && d > 0.0 { assert x * d < 0.0; }
    if x > 0.0 && d < 0.0 { assert x * d < 0.0; }
  }

  /** n / d lies in [0, 1] exactly when n lies between 0 and d. */
  lemma UnitIntervalCleared(n: real, d: real)
    requires d != 0.0
    ensures InUnitInterval(n, d) <==> if d > 0.0 then 0.0 <= n <= d else d <= n <= 0.0
  {
    var q := n / d;
    assert n == q * d;
    assert n - d == (q - 1.0) * d;
    ProductSign(q, d);
    ProductSign(q - 1.0, d);
  }

  /**
   * LineIntersects: the flag starts true; a zero denominator clears it; then
   * each numerator is compared with the denominator according to the
   * denominator's sign.
   */
  function LineIntersects(p1: Vec2, p2: Vec2, p3: Vec2, p4: Vec2): (r: bool)
    ensures Denominator(p1, p2, p3, p4) == 0.0 ==> !r
    ensures Denominator(p1, p2, p3, p4) != 0.0 ==>
      (r <==>
        (InUnitInterval(AlphaNumerator(p1, p2, p3, p4), Denominator(p1, p2, p3, p4)) &&
         InUnitInterval(BetaNumerator(p1, p2, p3, p4), Denominator(p1, p2, p3, p4))))
  {
    var alphaNumerator := AlphaNumerator(p1, p2, p3, p4);
    var alphaDenominator := Denominator(p1, p2, p3, p4);
    var betaNumerator := BetaNumerator(p1, p2, p3, p4);
    var betaDenominator := Denominator(p1, p2, p3, p4);
    if alphaDenominator == 0.0 || betaDenominator == 0.0 then false
    else
      UnitIntervalCleared(alphaNumerator, alphaDenominator);
      UnitIntervalCleared(betaNumerator, betaDenominator);
      var afterAlpha :=
        if alphaDenominator > 0.0 then !(alphaNumerator < 0.0 || alphaNumerator > alphaDenominator)
        else !(alphaNumerator > 0.0 || alphaNumerator < alphaDenominator);
      if afterAlpha && betaDenominator > 0.0 then
        !(betaNumerator < 0.0 || betaNumerator > betaDenominator)
      else if betaNumerator > 0.0 || betaNumerator < betaDenominator then false
      else afterAlpha
  }

  /** Cramer's rule for the 2x2 system behind LineIntersects, multiplied through by d. */
  lemma CramerCleared(ax: real, ay: real, bx: real, b_y: real, cx: real, cy: real)
    ensures var d := ay * bx - ax * b_y;
            var an := b_y * cx - bx * cy;
            var bn := ax * cy - ay * cx;
            an * ax + bn * bx == -cx * d && an * ay + bn * b_y == -cy * d
  {
  }

  /** Dividing a cleared equation an * u + bn * v == w * d through by d. */
  lemma DivideThrough(an: real, bn: real, u: real, v: real, w: real, d: real)
    requires d != 0.0 && an * u + bn * v == w * d
    ensures (an / d) * u + (bn / d) * v == w
  {
    var alpha, beta := an / d, bn / d;
    assert an == alpha * d && bn == beta * d;
    assert d * (alpha * u + beta * v - w) == 0.0;
  }

  /**
   * When LineIntersects answers true, the two segments really cross: the
   * point at parameter alpha on p1 -> p2 is the point at parameter beta on
   * p3 -> p4.
   */
  lemma LineIntersectsFindsCrossing(p1: Vec2, p2: Vec2, p3: Vec2, p4: Vec2)
    requires LineIntersects(p1, p2, p3, p4)
    ensures Denominator(p1, p2, p3, p4) != 0.0
    ensures var d := Denominator(p1, p2, p3, p4);
            var alpha := AlphaNumerator(p1, p2, p3, p4) / d;
            var beta := BetaNumerator(p1, p2, p3, p4) / d;
            0.0 <= alpha <= 1.0 && 0.0 <= beta <= 1.0 &&
            p1.Plus(p2.Minus(p1).Scale(alpha)) == p3.Plus(p4.Minus(p3).Scale(beta))
  {
    var d := Denominator(p1, p2, p3, p4);
    var an := AlphaNumerator(p1, p2, p3, p4);
    var bn := BetaNumerator(p1, p2, p3, p4);
    var a := p2.Minus(p1);
    var b := p3.Minus(p4);
    var c := p1.Minus(p3);
    CramerCleared(a.x, a.y, b.x, b.y, c.x, c.y);
    DivideThrough(an, bn, a.x, b.x, -c.x, d);
    DivideThrough(an, bn, a.y, b.y, -c.y, d);
    var alpha, beta := an / d, bn / d;
    assert p4.Minus(p3).Scale(beta) == Vec2(-(b.x * beta), -(b.y * beta));
  }

  /** TriangleArea: half the absolute cross product. */
  function TriangleArea(x1: real, y1: real, x2: real, y2: real, x3: real, y3: real): (area: real)
    ensures area >= 0.0
  {
    Abs((x1 * (y2 - y3) + x2 * (y3 - y1) + x3 * (y1 - y2)) / 2.0)
  }

  /** The area does not depend on the order in which the vertices are given. */
  lemma TriangleAreaPermutationInvariant(x1: real, y1: real, x2: real, y2: real, x3: real, y3: real)
    ensures TriangleArea(x1, y1, x2, y2, x3, y3) == TriangleArea(x2, y2, x1, y1, x3, y3)
    ensures TriangleArea(x1, y1, x2, y2, x3, y3) == TriangleArea(x1, y1, x3, y3, x2, y2)
    ensures TriangleArea(x1, y1, x2, y2, x3, y3) == TriangleArea(x2, y2, x3, y3, x1, y1)
  {
    var e := x1 * (y2 - y3) + x2 * (y3 - y1) + x3 * (y1 - y2);
    assert x2 * (y1 - y3) + x1 * (y3 - y2) + x3 * (y2 - y1) == -e;
    assert x1 * (y3 - y2) + x3 * (y2 - y1) + x2 * (y1 - y3) == -e;
    assert x2 * (y3 - y1) + x3 * (y1 - y2) + x1 * (y2 - y3) == e;
  }

  function SideS(p0: Vec2, p2: Vec2, p: Vec2): real {
    p0.y * p2.x - p0.x * p2.y + (p2.y - p0.y) * p.x + (p0.x - p2.x) * p.y
  }

  function SideT(p0: Vec2, p1: Vec2, p: Vec2): real {
    p0.x * p1.y - p0.y * p1.x + (p0.y - p1.y) * p.x + (p1.x - p0.x) * p.y
  }

  /** Twice the signed area of the triangle p0, p1, p2. */
  function SignedArea2(p0: Vec2, p1: Vec2, p2: Vec2): real {
    -p1.y * p2.x + p0.y * (p2.x - p1.x) + p0.x * (p1.y - p2.y) + p1.x * p2.y
  }

  /**
   * IsPointInsideTriangle: s and t must have the same sign; after flipping all
   * three signs for a clockwise triangle, the point is inside when s > 0,
   * t > 0 and s + t < A.
   */
  function IsPointInsideTriangle(p0: Vec2, p1: Vec2, p2: Vec2, p: Vec2): (inside: bool)
    ensures var s, t, A := SideS(p0, p2, p), SideT(p0, p1, p), SignedArea2(p0, p1, p2);
            inside <==> ((s > 0.0 && t > 0.0 && A > 0.0) || (s < 0.0 && t < 0.0 && A < 0.0)) &&
                        Abs(s) + Abs(t) < Abs(A)
  {
    var s := SideS(p0, p2, p);
    var t := SideT(p0, p1, p);
    if (s < 0.0) != (t < 0.0) then false
    else
      var A := SignedArea2(p0, p1, p2);
      if A < 0.0 then -s > 0.0 && -t > 0.0 && -s + -t < -A
      else s > 0.0 && t > 0.0 && s + t < A
  }

  /** The test is strict: no vertex of the triangle is inside it. */
  lemma VerticesNotInside(p0: Vec2, p1: Vec2, p2: Vec2)
    ensures !IsPointInsideTriangle(p0, p1, p2, p0)
    ensures !IsPointInsideTriangle(p0, p1, p2, p1)
    ensures !IsPointInsideTriangle(p0, p1, p2, p2)
  {
    assert SideS(p0, p2, p0) == 0.0;
    assert SideT(p0, p1, p1) == 0.0;
    assert SideS(p0, p2, p2) == 0.0;
  }

  /** A degenerate triangle (zero area) contains no point. */
  lemma DegenerateTriangleEmpty(p0: Vec2, p1: Vec2, p2: Vec2, p: Vec2)
    requires SignedArea2(p0, p1, p2) == 0.0
    ensures !IsPointInsideTriangle(p0, p1, p2, p)
  {
  }

  /** Swapping p1 and p2 (the other winding) gives the same answer. */
  lemma InsideIndependentOfWinding(p0: Vec2, p1: Vec2, p2: Vec2, p: Vec2)
    ensures IsPointInsideTriangle(p0, p1, p2, p) == IsPointInsideTriangle(p0, p2, p1, p)
  {
    var s, t, A := SideS(p0, p2, p), SideT(p0, p1, p), SignedArea2(p0, p1, p2);
    assert SideS(p0, p1, p) == -t;
    assert SideT(p0, p2, p) == -s;
    assert SignedArea2(p0, p2, p1) == -A;
  }

  /** One component of ClampVector3. */
  function ClampComponent(v: real, lo: real, hi: real): real {
    if v > hi then hi else if v < lo then lo else v
  }

  /** ClampVector3: each component clamped to [min, max]. */
  function ClampVector3(v: Vec3, lo: Vec3, hi: Vec3): (r: Vec3)
    ensures lo.x <= hi.x ==> lo.x <= r.x <= hi.x
    ensures lo.y <= hi.y ==> lo.y <= r.y <= hi.y
    ensures lo.z <= hi.z ==> lo.z <= r.z <= hi.z
    ensures lo.x <= v.x <= hi.x ==> r.x == v.x
    ensures lo.y <= v.y <= hi.y ==> r.y == v.y
    ensures lo.z <= v.z <= hi.z ==> r.z == v.z
  {
    Vec3(ClampComponent(v.x, lo.x, hi.x), ClampComponent(v.y, lo.y, hi.y), ClampComponent(v.z, lo.z, hi.z))
  }

  /** Clamping an already clamped vector changes nothing. */
  lemma ClampIdempotent(v: Vec3, lo: Vec3, hi: Vec3)
    requires lo.x <= hi.x && lo.y <= hi.y && lo.z <= hi.z
    ensures ClampVector3(ClampVector3(v, lo, hi), lo, hi) == ClampVector3(v, lo, hi)
  {
  }
}
