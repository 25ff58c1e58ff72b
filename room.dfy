/**
 * Room: a mutable axis-aligned rectangle. The generator keeps rooms in lists
 * and moves them in place through shared references, so a Room is an object
 * whose setters overwrite its private Rect; Room defines no equality of its
 * own, so two rooms are the same room only when they are the same object.
 */
module Rooms {
  import opened Geometry

  class Room {
    var rect: Rect
    var isMainRoom: bool

    /** Room(): the zero rectangle. */
    constructor Empty()
      ensures rect == ZeroRect && rect.Size() == Vec2(0.0, 0.0) && !isMainRoom
    {
      rect := Rect(0.0, 0.0, 0.0, 0.0);
      isMainRoom := false;
    }

    /** Room(Rect): wraps the given rectangle value. */
    constructor FromRect(r: Rect)
      ensures rect == r && !isMainRoom
    {
      rect := r;
      isMainRoom := false;
    }

    /** Room(Room r): copies r's Rect value; the two rooms share nothing afterwards. */
    constructor Copy(r: Room)
      ensures rect == r.rect && !isMainRoom
    {
      rect := r.rect;
      isMainRoom := false;
    }

    /** Room(x, y, width, height): the accessors read back exactly what was given. */
    constructor (x: real, y: real, width: real, height: real)
      ensures X() == x && Y() == y && Width() == width && Height() == height
      ensures XMax() == x + width && YMax() == y + height
      ensures !isMainRoom
    {
      rect := Rect(x, y, width, height);
      isMainRoom := false;
    }

    /** Overlaps: Rect.Overlaps of the two rectangles (strict). */
    predicate Overlaps(r: Room)
      reads this, r
    {
      rect.Overlaps(r.rect)
    }

    /** Contains: Rect.Contains of the rectangle (half-open). */
    predicate Contains(p: Vec2)
      reads this
    {
      rect.Contains(p)
    }

    function Position(): Vec2 reads this { rect.Position() }
    function Size(): Vec2 reads this { rect.Size() }
    function Center(): Vec2 reads this { rect.Center() }
    function Width(): real reads this { rect.width }
    function Height(): real reads this { rect.height }
    function X(): real reads this { rect.x }
    function Y(): real reads this { rect.y }
    function XMin(): real reads this { rect.XMin() }
    function XMax(): real reads this { rect.XMax() }
    function YMin(): real reads this { rect.YMin() }
    function YMax(): real reads this { rect.YMax() }
    function Min(): Vec2 reads this { rect.Min() }
    function Max(): Vec2 reads this { rect.Max() }
    function IsMainRoom(): bool reads this { isMainRoom }

    method SetPosition(p: Vec2)
      modifies this
      ensures rect == old(rect).WithPosition(p)
      ensures Position() == p && Size() == old(Size()) && isMainRoom == old(isMainRoom)
    {
      rect := rect.WithPosition(p);
    }

    method SetSize(s: Vec2)
      modifies this
      ensures Size() == s && Position() == old(Position()) && isMainRoom == old(isMainRoom)
    {
      rect := rect.WithSize(s);
    }

    method SetCenter(c: Vec2)
      modifies this
      ensures Center() == c && Size() == old(Size()) && isMainRoom == old(isMainRoom)
    {
      rect := rect.WithCenter(c);
    }

    method SetWidth(v: real)
      modifies this
      ensures Width() == v && Position() == old(Position()) && Height() == old(Height())
      ensures isMainRoom == old(isMainRoom)
    {
      rect := rect.WithWidth(v);
    }

    method SetHeight(v: real)
      modifies this
      ensures Height() == v && Position() == old(Position()) && Width() == old(Width())
      ensures isMainRoom == old(isMainRoom)
    {
      rect := rect.WithHeight(v);
    }

    method SetX(v: real)
      modifies this
      ensures X() == v && Y() == old(Y()) && Size() == old(Size()) && isMainRoom == old(isMainRoom)
    {
      rect := rect.WithX(v);
    }

    method SetY(v: real)
      modifies this
      ensures Y() == v && X() == old(X()) && Size() == old(Size()) && isMainRoom == old(isMainRoom)
    {
      rect := rect.WithY(v);
    }

    /** Setting xMin moves the left edge and keeps the right edge where it was. */
    method SetXMin(v: real)
      modifies this
      ensures XMin() == v && XMax() == old(XMax())
      ensures YMin() == old(YMin()) && YMax() == old(YMax()) && isMainRoom == old(isMainRoom)
    {
      rect := rect.WithXMin(v);
    }

    /** Setting xMax changes only the width: xMin stays put. */
    method SetXMax(v: real)
      modifies this
      ensures XMax() == v && XMin() == old(XMin()) && Width() == v - old(XMin())
      ensures YMin() == old(YMin()) && YMax() == old(YMax()) && isMainRoom == old(isMainRoom)
    {
      rect := rect.WithXMax(v);
    }

    method SetYMin(v: real)
      modifies this
      ensures YMin() == v && YMax() == old(YMax())
      ensures XMin() == old(XMin()) && XMax() == old(XMax()) && isMainRoom == old(isMainRoom)
    {
      rect := rect.WithYMin(v);
    }

    /** Setting yMax changes only the height: yMin stays put. */
    method SetYMax(v: real)
      modifies this
      ensures YMax() == v && YMin() == old(YMin()) && Height() == v - old(YMin())
      ensures XMin() == old(XMin()) && XMax() == old(XMax()) && isMainRoom == old(isMainRoom)
    {
      rect := rect.WithYMax(v);
    }

    method SetMin(v: Vec2)
      modifies this
      ensures Min() == v && Max() == old(Max()) && isMainRoom == old(isMainRoom)
    {
      rect := rect.WithMin(v);
    }

    method SetMax(v: Vec2)
      modifies this
      ensures Max() == v && Min() == old(Min()) && isMainRoom == old(isMainRoom)
    {
      rect := rect.WithMax(v);
    }

    method SetRect(r: Rect)
      modifies this
      ensures rect == r && isMainRoom == old(isMainRoom)
    {
      rect := r;
    }

    method SetIsMainRoom(b: bool)
      modifies this
      ensures isMainRoom == b && rect == old(rect)
    {
      isMainRoom := b;
    }
  }

  /** Overlaps is symmetric, and it is exactly the strict interval test on both axes. */
  lemma RoomOverlapsSymmetric(a: Room, b: Room)
    ensures a.Overlaps(b) <==> b.Overlaps(a)
    ensures a.Overlaps(b) <==>
      (a.XMin() < b.XMax() && b.XMin() < a.XMax() && a.YMin() < b.YMax() && b.YMin() < a.YMax())
  {
  }

  /** A room contains a point exactly when the point lies in its half-open box: lower edges in, upper edges out. */
  lemma RoomContainsHalfOpen(r: Room, p: Vec2)
    ensures r.Contains(p) <==> r.XMin() <= p.x < r.XMax() && r.YMin() <= p.y < r.YMax()
  {
  }

  /**
   * A copy is an independent object: moving the copy leaves the original's
   * rectangle as it was.
   */
  method CopyThenMove(r: Room, p: Vec2) returns (c: Room)
    ensures fresh(c) && c != r
    ensures c.Position() == p && c.Size() == r.Size()
    ensures r.rect == old(r.rect)
  {
    c := new Room.Copy(r);
    c.SetPosition(p);
  }

  /**
   * Two rooms built from the same numbers are still two rooms: a list holding
   * the first does not contain the second.
   */
  method EqualRectsDistinctRooms(x: real, y: real, w: real, h: real) returns (a: Room, b: Room)
    ensures a.rect == b.rect
    ensures a != b && b !in [a] && |[a, b]| == 2
  {
    a := new Room(x, y, w, h);
    b := new Room(x, y, w, h);
  }
}
