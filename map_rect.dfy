/**
 * UpdateMapRect: the generator's bounding box of the layout, widened by each
 * rectangle it is told about. Per axis it is an `if ... else if`, so a
 * rectangle that sticks out on both sides of an axis widens only the
 * minimum side.
 */
module MapBounds {
  import opened Geometry

  function Min(a: real, b: real): real { if a <= b then a else b }
  function Max(a: real, b: real): real { if a >= b then a else b }

  /** The mapRect after UpdateMapRect(r). */
  function Extend(m: Rect, r: Rect): (e: Rect)
    ensures e.XMin() == Min(m.XMin(), r.XMin()) && e.YMin() == Min(m.YMin(), r.YMin())
    ensures e.XMax() == (if r.XMin() < m.XMin() then m.XMax() else Max(m.XMax(), r.XMax()))
    ensures e.YMax() == (if r.YMin() < m.YMin() then m.YMax() else Max(m.YMax(), r.YMax()))
  {
    var mx :=
      if r.XMin() < m.XMin() then m.WithXMin(r.XMin())
      else if r.XMax() > m.XMax() then m.WithXMax(r.XMax())
      else m;
    if r.YMin() < mx.YMin() then mx.WithYMin(r.YMin())
    else if r.YMax() > mx.YMax() then mx.WithYMax(r.YMax())
    else mx
  }

  /** UpdateMapRect never shrinks the box: the minimum edges only decrease, the maximum edges only increase. */
  lemma ExtendNeverShrinks(m: Rect, r: Rect)
    ensures var e := Extend(m, r);
            e.XMin() <= m.XMin() && e.YMin() <= m.YMin() && e.XMax() >= m.XMax() && e.YMax() >= m.YMax()
  {
  }

  /** The box covers the rectangle along an axis unless the rectangle sticks out on both sides of it. */
  lemma ExtendCoversUnlessBothSides(m: Rect, r: Rect)
    ensures var e := Extend(m, r);
            (r.XMin() >= m.XMin() || r.XMax() <= m.XMax() ==> e.XMin() <= r.XMin() && r.XMax() <= e.XMax()) &&
            (r.YMin() >= m.YMin() || r.YMax() <= m.YMax() ==> e.YMin() <= r.YMin() && r.YMax() <= e.YMax())
  {
  }

  /** A rectangle wider than the box on both sides leaves its right part outside. */
  lemma ElseIfMissesMaxSide()
    ensures var e := Extend(Rect(0.0, 0.0, 10.0, 10.0), Rect(-5.0, 0.0, 20.0, 10.0));
            e.XMin() == -5.0 && e.XMax() == 10.0 && e.XMax() < 15.0
  {
  }

  /** UpdateMapRect applied to each rectangle of rs in turn. */
  function ExtendAll(m: Rect, rs: seq<Rect>): (e: Rect)
    ensures e.XMin() <= m.XMin() && e.YMin() <= m.YMin() && e.XMax() >= m.XMax() && e.YMax() >= m.YMax()
    decreases |rs|
  {
    if rs == [] then m
    else
      ExtendNeverShrinks(ExtendAll(m, rs[..|rs| - 1]), rs[|rs| - 1]);
      Extend(ExtendAll(m, rs[..|rs| - 1]), rs[|rs| - 1])
  }

  /** Extending by a concatenation is extending by the first part and then by the second. */
  lemma {:induction false} ExtendAllAppend(m: Rect, rs: seq<Rect>, ts: seq<Rect>)
    ensures ExtendAll(m, rs + ts) == ExtendAll(ExtendAll(m, rs), ts)
    decreases |ts|
  {
    if ts == [] {
      assert rs + ts == rs;
    } else {
      assert (rs + ts)[..|rs + ts| - 1] == rs + ts[..|ts| - 1];
      ExtendAllAppend(m, rs, ts[..|ts| - 1]);
    }
  }
}
