/**
 * The hall geometry of CreateHalls for one connection: given the rectangles
 * of the two connected rooms and the hall thickness, the halls to carve.
 * A straight horizontal hall when both rooms span the (truncated) midpoint's
 * row, else a straight vertical hall when room A spans the midpoint's column
 * (room B is not consulted: the second test repeats the first), else an L of
 * two halls, horizontal first.
 */
module Halls {
  import opened Geometry

  /** The two room centres averaged, each coordinate truncated toward zero. */
  function Midpoint(a: Rect, b: Rect): (mid: Vec2)
    ensures IsIntegral(mid.x) && IsIntegral(mid.y)
  {
    var m := a.Position().Plus(a.Size().Scale(0.5)).Plus(b.Position()).Plus(b.Size().Scale(0.5)).Scale(0.5);
    Vec2(Trunc(m.x) as real, Trunc(m.y) as real)
  }

  /** hallTickness / 2 in C#'s integer division. */
  function Half(t: int): real {
    TruncDiv(t, 2) as real
  }

  /** The room's rectangle spans the row of a hall of thickness t at the midpoint. */
  predicate HoldsHorizontal(r: Rect, mid: Vec2, t: int) {
    r.YMax() >= mid.y + Half(t) && r.YMin() <= mid.y - Half(t)
  }

  /** The room's rectangle spans the column of a hall of thickness t at the midpoint. */
  predicate HoldsVertical(r: Rect, mid: Vec2, t: int) {
    r.XMin() <= mid.x - Half(t) && r.XMax() >= mid.x + Half(t)
  }

  /** The horizontal test: both rooms span the midpoint's row. */
  predicate StraightHorizontal(a: Rect, b: Rect, t: int) {
    HoldsHorizontal(a, Midpoint(a, b), t) && HoldsHorizontal(b, Midpoint(a, b), t)
  }

  /** The vertical test as written: room A checked twice. */
  predicate StraightVertical(a: Rect, b: Rect, t: int) {
    HoldsVertical(a, Midpoint(a, b), t) && HoldsVertical(a, Midpoint(a, b), t)
  }

  /** The straight horizontal hall, from the right edge of the left room across the gap. */
  function HorizontalHall(a: Rect, b: Rect, t: int): Rect {
    var mid := Midpoint(a, b);
    var xDiff := a.x - b.x;
    if xDiff < 0.0 then
      Rect(a.XMax(), Trunc(mid.y - Half(t)) as real, Abs(a.XMax() - b.XMin()), t as real)
    else
      Rect(b.XMax(), Trunc(mid.y - Half(t)) as real, Abs(b.XMax() - a.XMin()), t as real)
  }

  /** The straight vertical hall, from the top of the lower room across the gap. */
  function VerticalHall(a: Rect, b: Rect, t: int): Rect {
    var mid := Midpoint(a, b);
    var yDiff := a.y - b.y;
    if yDiff < 0.0 then
      Rect(Trunc(mid.x - Half(t)) as real, a.YMax(), t as real, Abs(a.YMax() - b.YMin()))
    else
      Rect(Trunc(mid.x + Half(t)) as real, b.YMax(), t as real, Abs(b.YMax() - a.YMin()))
  }

  /** hallTickness / 2 rounds down: for a non-negative thickness, twice it lies within one of the thickness. */
  lemma HalfBounds(t: int)
    requires t >= 0
    ensures 0.0 <= Half(t) && 2.0 * Half(t) <= t as real < 2.0 * Half(t) + 2.0
  {
  }

  /** When both rooms span the midpoint's row, their vertical extents overlap. */
  lemma StraightHorizontalRowsOverlap(a: Rect, b: Rect, t: int)
    requires StraightHorizontal(a, b, t) && t >= 0
    ensures a.YMin() <= b.YMax() && b.YMin() <= a.YMax()
  {
    HalfBounds(t);
  }

  /** The vertical test holds exactly when room A spans the midpoint's column: room B plays no part. */
  lemma StraightVerticalIgnoresB(a: Rect, b: Rect, t: int)
    ensures StraightVertical(a, b, t) <==> HoldsVertical(a, Midpoint(a, b), t)
  {
  }

  /** The straight horizontal hall is hallTickness high, starts at the right edge of the room further left, and sits on a whole row. */
  lemma HorizontalHallShape(a: Rect, b: Rect, t: int)
    ensures var h := HorizontalHall(a, b, t);
            h.height == t as real && h.width >= 0.0 && IsIntegral(h.y) &&
            h.x == if a.x < b.x then a.XMax() else b.XMax()
  {
  }

  /** The straight vertical hall is hallTickness wide, starts at the top edge of the lower room, and sits on a whole column. */
  lemma VerticalHallShape(a: Rect, b: Rect, t: int)
    ensures var h := VerticalHall(a, b, t);
            h.width == t as real && h.height >= 0.0 && IsIntegral(h.x) &&
            h.y == if a.y < b.y then a.YMax() else b.YMax()
  {
  }

  /**
   * The L-shaped pair [xHall, yHall], built, as the source does, by setting
   * the fields of a zero rectangle one after the other.
   */
  function LHalls(a: Rect, b: Rect, t: int): (hs: seq<Rect>)
    ensures |hs| == 2 && hs[0].height == t as real && hs[1].width == t as real
  {
    var h := Half(t);
    var tr := t as real;
    var posDiff := a.Position().Minus(b.Position());
    if Abs(posDiff.x) >= Abs(posDiff.y) then
      if posDiff.x <= 0.0 then
        var xHall := ZeroRect.WithX(a.XMax()).WithY(a.Center().y - h).WithHeight(tr).WithWidth(b.Center().x - a.XMax());
        var yHall :=
          if posDiff.y <= 0.0 then
            ZeroRect.WithX(xHall.XMax() - tr).WithY(xHall.Center().y - h).WithYMax(b.YMin()).WithWidth(tr)
          else
            ZeroRect.WithX(xHall.XMax() - tr).WithY(xHall.Center().y + h).WithYMax(a.YMin()).WithWidth(tr);
        [xHall, yHall]
      else
        var xHall := ZeroRect.WithX(b.XMax()).WithY(b.Center().y - h).WithHeight(tr).WithWidth(a.Center().x - b.XMax());
        var yHall :=
          if posDiff.y <= 0.0 then
            ZeroRect.WithX(xHall.XMax() - tr).WithY(a.YMax()).WithYMax(xHall.Center().y - h).WithWidth(tr)
          else
            ZeroRect.WithX(xHall.XMax() - tr).WithY(xHall.Center().y + h).WithYMax(b.YMax()).WithWidth(tr);
        [xHall, yHall]
    else
      if posDiff.y < 0.0 then
        var yHall := ZeroRect.WithX(a.Center().x - h).WithY(a.YMax()).WithWidth(tr).WithYMax(b.Center().y);
        var xHall :=
          if posDiff.x <= 0.0 then
            ZeroRect.WithX(yHall.XMin()).WithY(yHall.YMax() - h).WithHeight(tr).WithXMax(b.XMin())
          else
            ZeroRect.WithX(b.XMax()).WithY(yHall.YMax() - h).WithHeight(tr).WithXMax(yHall.XMax());
        [xHall, yHall]
      else
        var yHall := ZeroRect.WithX(b.Center().x - h).WithY(b.YMin()).WithWidth(tr).WithYMax(a.Center().y);
        var xHall :=
          if posDiff.x <= 0.0 then
            ZeroRect.WithX(yHall.XMax()).WithY(yHall.YMax()).WithHeight(tr).WithXMax(a.XMax())
          else
            ZeroRect.WithX(yHall.XMin()).WithY(yHall.YMax()).WithHeight(tr).WithXMax(a.XMin());
        [xHall, yHall]
  }

  /**
   * The halls CreateHalls adds for a connection from a room with rectangle a
   * to a room with rectangle b: one straight hall whose cross-section is the
   * thickness and whose length is an absolute value, or two L halls with the
   * thickness as the horizontal hall's height and the vertical hall's width.
   */
  function HallsBetween(a: Rect, b: Rect, t: int): (hs: seq<Rect>)
    ensures 1 <= |hs| <= 2
    ensures StraightHorizontal(a, b, t) ==>
      |hs| == 1 && hs[0].height == t as real && hs[0].width >= 0.0 && IsIntegral(hs[0].y)
    ensures !StraightHorizontal(a, b, t) && StraightVertical(a, b, t) ==>
      |hs| == 1 && hs[0].width == t as real && hs[0].height >= 0.0 && IsIntegral(hs[0].x)
    ensures !StraightHorizontal(a, b, t) && !StraightVertical(a, b, t) ==>
      |hs| == 2 && hs[0].height == t as real && hs[1].width == t as real
  {
    if StraightHorizontal(a, b, t) then [HorizontalHall(a, b, t)]
    else if StraightVertical(a, b, t) then [VerticalHall(a, b, t)]
    else LHalls(a, b, t)
  }

  /**
   * When room A lies to the left of room B with a gap between them, the
   * horizontal hall runs exactly from A's right edge to B's left edge.
   */
  lemma HorizontalHallBridgesGap(a: Rect, b: Rect, t: int)
    requires StraightHorizontal(a, b, t) && a.x < b.x && a.XMax() <= b.XMin()
    ensures var hs := HallsBetween(a, b, t);
            hs[0].XMin() == a.XMax() && hs[0].XMax() == b.XMin()
  {
  }

  /**
   * When room A lies below room B with a gap between them, the vertical hall
   * runs exactly from A's top edge to B's bottom edge.
   */
  lemma VerticalHallBridgesGap(a: Rect, b: Rect, t: int)
    requires !StraightHorizontal(a, b, t) && StraightVertical(a, b, t) && a.y < b.y && a.YMax() <= b.YMin()
    ensures var hs := HallsBetween(a, b, t);
            hs[0].YMin() == a.YMax() && hs[0].YMax() == b.YMin()
  {
  }

  /** Two side-by-side rooms get one horizontal hall across the gap. */
  lemma StraightHorizontalExample()
    ensures HallsBetween(Rect(0.0, 0.0, 10.0, 10.0), Rect(20.0, 0.0, 10.0, 10.0), 2) == [Rect(10.0, 4.0, 10.0, 2.0)]
  {
    var a, b := Rect(0.0, 0.0, 10.0, 10.0), Rect(20.0, 0.0, 10.0, 10.0);
    assert Midpoint(a, b) == Vec2(15.0, 5.0);
    assert Half(2) == 1.0;
    assert StraightHorizontal(a, b, 2);
    TruncWhole(4);
    assert HorizontalHall(a, b, 2) == Rect(10.0, 4.0, 10.0, 2.0);
  }

  /**
   * Diagonally placed rooms get an L: a horizontal hall out of A's right side
   * at A's centre row, then a vertical hall up to B's bottom edge.
   */
  lemma LShapeExample()
    ensures HallsBetween(Rect(0.0, 0.0, 10.0, 10.0), Rect(30.0, 30.0, 10.0, 10.0), 2)
            == [Rect(10.0, 4.0, 25.0, 2.0), Rect(33.0, 4.0, 2.0, 26.0)]
  {
    var a, b := Rect(0.0, 0.0, 10.0, 10.0), Rect(30.0, 30.0, 10.0, 10.0);
    assert Midpoint(a, b) == Vec2(20.0, 20.0);
    assert Half(2) == 1.0;
    assert !StraightHorizontal(a, b, 2);
    assert !StraightVertical(a, b, 2);
  }

  /**
   * Rooms at (0, 0) and (5, 30), both 10 by 10, overlap in x by 5: room A
   * spans the midpoint's column, so they get one straight vertical hall, not
   * an L.
   */
  lemma OffsetColumnsGetStraightHall()
    ensures HallsBetween(Rect(0.0, 0.0, 10.0, 10.0), Rect(5.0, 30.0, 10.0, 10.0), 2)
            == [Rect(6.0, 10.0, 2.0, 20.0)]
  {
    var a, b := Rect(0.0, 0.0, 10.0, 10.0), Rect(5.0, 30.0, 10.0, 10.0);
    assert Midpoint(a, b) == Vec2(7.0, 20.0);
    assert Half(2) == 1.0;
    assert !StraightHorizontal(a, b, 2);
    assert StraightVertical(a, b, 2);
    TruncWhole(6);
    assert VerticalHall(a, b, 2) == Rect(6.0, 10.0, 2.0, 20.0);
  }

  /**
   * Room B is never checked for the vertical hall: here B lies entirely to the
   * right of the hall's column, and the hall still ends at B's bottom edge
   * height without touching B.
   */
  lemma VerticalHallMayMissRoomB()
    ensures var a, b := Rect(0.0, 0.0, 100.0, 10.0), Rect(60.0, 50.0, 10.0, 10.0);
            var hs := HallsBetween(a, b, 2);
            hs == [Rect(56.0, 10.0, 2.0, 40.0)] &&
            !HoldsVertical(b, Midpoint(a, b), 2) && !hs[0].Overlaps(b)
  {
    var a, b := Rect(0.0, 0.0, 100.0, 10.0), Rect(60.0, 50.0, 10.0, 10.0);
    assert Midpoint(a, b) == Vec2(57.0, 30.0);
    assert Half(2) == 1.0;
    assert !StraightHorizontal(a, b, 2);
    TruncWhole(56);
  }

  /**
   * With room A above room B, the vertical hall is placed at the midpoint
   * column plus half the thickness, while with the rooms swapped it is at the
   * column minus half: the same pair of rooms gets halls thickness units apart.
   */
  lemma VerticalHallOffsetDependsOnOrder()
    ensures var upper, lower := Rect(0.0, 30.0, 10.0, 10.0), Rect(0.0, 0.0, 10.0, 10.0);
            HallsBetween(upper, lower, 2) == [Rect(6.0, 10.0, 2.0, 20.0)] &&
            HallsBetween(lower, upper, 2) == [Rect(4.0, 10.0, 2.0, 20.0)]
  {
    var upper, lower := Rect(0.0, 30.0, 10.0, 10.0), Rect(0.0, 0.0, 10.0, 10.0);
    assert Midpoint(upper, lower) == Vec2(5.0, 20.0);
    assert Midpoint(lower, upper) == Vec2(5.0, 20.0);
    assert Half(2) == 1.0;
    assert !StraightHorizontal(upper, lower, 2);
    assert !StraightHorizontal(lower, upper, 2);
    assert StraightVertical(upper, lower, 2) && StraightVertical(lower, upper, 2);
    TruncWhole(6);
    TruncWhole(4);
    assert VerticalHall(upper, lower, 2) == Rect(6.0, 10.0, 2.0, 20.0);
    assert VerticalHall(lower, upper, 2) == Rect(4.0, 10.0, 2.0, 20.0);
  }

  /**
   * L halls may have negative lengths: B's bottom edge lies below the row
   * the vertical hall starts from, so its height comes out negative.
   */
  lemma LHallNegativeLength()
    ensures HallsBetween(Rect(0.0, 0.0, 10.0, 20.0), Rect(40.0, 2.0, 10.0, 1.0), 2)
            == [Rect(10.0, 9.0, 35.0, 2.0), Rect(43.0, 9.0, 2.0, -7.0)]
  {
    var a, b := Rect(0.0, 0.0, 10.0, 20.0), Rect(40.0, 2.0, 10.0, 1.0);
    assert Midpoint(a, b) == Vec2(25.0, 6.0);
    assert Half(2) == 1.0;
    assert !StraightHorizontal(a, b, 2);
    assert !StraightVertical(a, b, 2);
  }
}
