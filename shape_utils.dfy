/**
 * ShapeUtils: the orientation test, squared distance, the extreme-point scan,
 * the vertex pruning and re-ordering of OptimizeVertices, and the radius fold
 * of the random point in an ellipse.
 */
module ShapeUtils {
  import opened Geometry
  import opened Seqs
  import opened Wrappers

  /** int.CompareTo: -1, 0 or 1 as a is below, equal to or above b. */
  function CompareTo(a: int, b: int): (c: int)
    ensures c == -1 || c == 0 || c == 1
    ensures c < 0 <==> a < b
    ensures c == 0 <==> a == b
  {
    if a < b then -1 else if a > b then 1 else 0
  }

  /**
   * FindTurn: the two cross-product terms are each truncated to int, and the
   * answer is ZERO.CompareTo(x1 - x2): 1 for a left turn (x1 < x2), -1 for a
   * right turn, 0 for none.
   */
  function FindTurn(p: Vec2, q: Vec2, r: Vec2): (turn: int)
    ensures turn == -1 || turn == 0 || turn == 1
    ensures var x1 := Trunc((q.x - p.x) * (r.y - p.y));
            var x2 := Trunc((r.x - p.x) * (q.y - p.y));
            (turn == 1 <==> x1 < x2) && (turn == 0 <==> x1 == x2)
  {
    var x1 := Trunc((q.x - p.x) * (r.y - p.y));
    var x2 := Trunc((r.x - p.x) * (q.y - p.y));
    var anotherInteger := x1 - x2;
    CompareTo(0, anotherInteger)
  }

  /** Swapping the last two points reverses the turn. */
  lemma FindTurnAntisymmetric(p: Vec2, q: Vec2, r: Vec2)
    ensures FindTurn(p, r, q) == -FindTurn(p, q, r)
  {
  }

  /** A repeated first point makes no turn. */
  lemma FindTurnDegenerate(p: Vec2, r: Vec2)
    ensures FindTurn(p, p, r) == 0
  {
    assert (p.x - p.x) * (r.y - p.y) == 0.0;
    assert (r.x - p.x) * (p.y - p.y) == 0.0;
  }

  /** Dist: the squared Euclidean distance; zero for a point and itself. */
  function Dist(p: Vec2, q: Vec2): (d: real)
    ensures d >= 0.0
    ensures p == q ==> d == 0.0
  {
    var dx := q.x - p.x;
    var dy := q.y - p.y;
    MulNonNegativeSquare(dx);
    MulNonNegativeSquare(dy);
    dx * dx + dy * dy
  }

  lemma MulNonNegativeSquare(v: real)
    ensures v * v >= 0.0
  {
    if v < 0.0 {
      MulNonNegative(-v, -v);
      assert v * v == (-v) * (-v);
    } else {
      MulNonNegative(v, v);
    }
  }

  lemma DistSymmetric(p: Vec2, q: Vec2)
    ensures Dist(p, q) == Dist(q, p)
  {
    assert (q.x - p.x) * (q.x - p.x) == (p.x - q.x) * (p.x - q.x);
    assert (q.y - p.y) * (q.y - p.y) == (p.y - q.y) * (p.y - q.y);
  }

  /** Point i is strictly above both neighbours in x, or strictly above both in y. */
  predicate IsLocalPeak(points: seq<Vec2>, i: int)
    requires 1 <= i < |points| - 1
  {
    (points[i].x > points[i - 1].x && points[i].x > points[i + 1].x) ||
    (points[i].y > points[i - 1].y && points[i].y > points[i + 1].y)
  }

  /**
   * GetExtremePoint: the first interior point that is a strict local maximum
   * in x or in y; points[0] when there is none.
   */
  method GetExtremePoint(points: seq<Vec2>) returns (e: Vec2)
    requires |points| > 0
    ensures e in points
    ensures (exists i :: 1 <= i < |points| - 1 && IsLocalPeak(points, i) && e == points[i] &&
                         forall k :: 1 <= k < i ==> !IsLocalPeak(points, k))
         || ((forall i :: 1 <= i < |points| - 1 ==> !IsLocalPeak(points, i)) && e == points[0])
  {
    var i := 1;
    while i < |points| - 1
      invariant 1 <= i
      invariant forall k :: 1 <= k < i && k < |points| - 1 ==> !IsLocalPeak(points, k)
    {
      if points[i].x > points[i - 1].x && points[i].x > points[i + 1].x {
        return points[i];
      }
      if points[i].y > points[i - 1].y && points[i].y > points[i + 1].y {
        return points[i];
      }
      i := i + 1;
    }
    return points[0];
  }

  /** The two direction vectors agree within the threshold on both components. */
  predicate SameDirection(direction: Vec2, current: Vec2, threshold: real) {
    Abs(direction.x - current.x) < threshold && Abs(direction.y - current.y) < threshold
  }

  /**
   * The pruning loop from index i on, with `current` the last kept direction:
   * a vertex whose outgoing direction matches `current` is removed and the
   * index stays; otherwise `current` becomes that direction and the index
   * moves on. `normalized` stands for Vector2.normalized.
   */
  function PruneFrom(vs: seq<Vec2>, i: nat, current: Vec2, normalized: Vec2 -> Vec2, threshold: real): (r: seq<Vec2>)
    requires 1 <= i <= |vs| - 1
    ensures 2 <= |r| <= |vs| && i < |r|
    ensures r[..i] == vs[..i] && r[|r| - 1] == vs[|vs| - 1]
    ensures IsSubseq(r, vs)
    decreases |vs| - i
  {
    if i >= |vs| - 1 then
      SubseqRefl(vs);
      vs
    else
      var direction := normalized(vs[i + 1].Minus(vs[i]));
      if SameDirection(direction, current, threshold) then
        var smaller := vs[..i] + vs[i + 1..];
        var r := PruneFrom(smaller, i, current, normalized, threshold);
        SubseqRemoveAt(vs, i);
        SubseqTrans(r, smaller, vs);
        assert smaller[..i] == vs[..i];
        r
      else
        var r := PruneFrom(vs, i + 1, direction, normalized, threshold);
        assert r[..i] == r[..i + 1][..i];
        r
  }

  /** The whole pruning pass, starting from the first edge's direction. */
  function Prune(vs: seq<Vec2>, normalized: Vec2 -> Vec2, threshold: real): (r: seq<Vec2>)
    requires |vs| >= 2
    ensures 2 <= |r| <= |vs|
    ensures r[0] == vs[0] && r[|r| - 1] == vs[|vs| - 1]
    ensures IsSubseq(r, vs)
  {
    PruneFrom(vs, 1, normalized(vs[1].Minus(vs[0])), normalized, threshold)
  }

  /**
   * RemoveOutOfDirectionVertices: walks the list and removes, in place, every
   * vertex that continues in the direction of the last kept edge. With fewer
   * than two vertices the first direction reads past the end of the list and
   * the source throws; the result is then None.
   */
  method RemoveOutOfDirectionVertices(vertices: seq<Vec2>, normalized: Vec2 -> Vec2, threshold: real)
    returns (res: Option<seq<Vec2>>)
    ensures res.None? <==> |vertices| < 2
    ensures res.Some? ==> res.value == Prune(vertices, normalized, threshold)
    ensures res.Some? ==>
              res.value[0] == vertices[0] && res.value[|res.value| - 1] == vertices[|vertices| - 1] &&
              IsSubseq(res.value, vertices)
  {
    if |vertices| < 2 {
      return None;
    }
    var r := vertices;
    var curDirection := normalized(r[1].Minus(r[0]));
    var i := 1;
    while i < |r| - 1
      invariant 1 <= i <= |r| - 1
      invariant PruneFrom(r, i, curDirection, normalized, threshold) == Prune(vertices, normalized, threshold)
      decreases |r| - i
    {
      var direction := normalized(r[i + 1].Minus(r[i]));
      if Abs(direction.x - curDirection.x) < threshold && Abs(direction.y - curDirection.y) < threshold {
        r := r[..i] + r[i + 1..];
      } else {
        curDirection := direction;
        i := i + 1;
      }
    }
    return Some(r);
  }

  /** The list rotated left by half its length. */
  function Rotate<T>(s: seq<T>): seq<T> {
    s[|s| / 2..] + s[..|s| / 2]
  }

  /** The rotation is a permutation: the second half first, then the first half. */
  lemma RotateIsPermutation<T>(s: seq<T>)
    ensures |Rotate(s)| == |s|
    ensures multiset(Rotate(s)) == multiset(s)
    ensures forall k :: 0 <= k < |s| ==>
              Rotate(s)[k] == if k < |s| - |s| / 2 then s[k + |s| / 2] else s[k - (|s| - |s| / 2)]
  {
    var h := |s| / 2;
    assert s == s[..h] + s[h..];
    assert multiset(s) == multiset(s[..h]) + multiset(s[h..]);
  }

  /**
   * OptimizeVertices: prune, rotate the survivors by half their count with
   * two copying loops, and prune again.
   */
  method OptimizeVertices(vertices: seq<Vec2>, normalized: Vec2 -> Vec2, threshold: real)
    returns (res: Option<seq<Vec2>>)
    ensures res.None? <==> |vertices| < 2
    ensures res.Some? ==>
              res.value == Prune(Rotate(Prune(vertices, normalized, threshold)), normalized, threshold) &&
              2 <= |res.value| <= |vertices|
  {
    var first := RemoveOutOfDirectionVertices(vertices, normalized, threshold);
    if first.None? {
      return None;
    }
    var vs := first.value;
    var auxList: seq<Vec2> := [];
    var i := |vs| / 2;
    while i < |vs|
      invariant |vs| / 2 <= i <= |vs|
      invariant auxList == vs[|vs| / 2..i]
    {
      auxList := auxList + [vs[i]];
      i := i + 1;
    }
    i := 0;
    while i < |vs| / 2
      invariant 0 <= i <= |vs| / 2
      invariant auxList == vs[|vs| / 2..] + vs[..i]
    {
      auxList := auxList + [vs[i]];
      i := i + 1;
    }
    RotateIsPermutation(vs);
    res := RemoveOutOfDirectionVertices(auxList, normalized, threshold);
  }

  /** The radius fold: u above 1 is reflected to 2 - u, a tent over [0, 2]. */
  function EllipseRadius(u: real): (r: real)
    ensures r == 1.0 - Abs(u - 1.0)
    ensures 0.0 <= u <= 2.0 ==> 0.0 <= r <= 1.0
  {
    if u > 1.0 then 2.0 - u else u
  }

  /** One coordinate of the point: the bound times the radius times the cosine or sine, rounded up. */
  function RoundedScale(w: int, r: real, c: real): (n: int)
    ensures n as real - 1.0 < w as real * r * c <= n as real
  {
    Ceil(w as real * r * c)
  }

  /** A bound a >= 0 times a factor in [0, 1] times a factor in [-1, 1] stays in [-a, a]. */
  lemma ScaleWithin(a: real, r: real, c: real, x: real)
    requires a >= 0.0 && 0.0 <= r <= 1.0 && -1.0 <= c <= 1.0 && x == a * r * c
    ensures -a <= x <= a
  {
    var ar := a * r;
    MulUnitBounds(a, r);
    assert 0.0 <= ar <= a;
    MulUnitBounds(ar, c);
    assert -ar <= ar * c <= ar;
  }

  /** Rounding up keeps a value of [-w, w] in [-w, w]. */
  lemma CeilWithin(x: real, w: int)
    requires -(w as real) <= x <= w as real
    ensures -w <= Ceil(x) <= w
  {
    var n := Ceil(x);
    assert n as real < w as real + 1.0;
  }

  /** A non-negative integer bound w times a radius in [0, 1] times a factor in [-1, 1] rounds up into [-w, w]. */
  lemma ScaledWithin(w: int, r: real, c: real)
    requires w >= 0 && 0.0 <= r <= 1.0 && -1.0 <= c <= 1.0
    ensures -w <= RoundedScale(w, r, c) <= w
  {
    var x := w as real * r * c;
    ScaleWithin(w as real, r, c, x);
    CeilWithin(x, w);
  }

  /**
   * GetRandomPointInElipse with its draws as inputs: u1 and u2 are the two
   * uniform draws, cosT and sinT the cosine and sine of the random angle.
   */
  function GetRandomPointInEllipse(width: int, height: int, u1: real, u2: real, cosT: real, sinT: real): (p: Vec2)
    ensures IsIntegral(p.x) && IsIntegral(p.y)
    ensures p.x - 1.0 < width as real * EllipseRadius(u1 + u2) * cosT <= p.x
    ensures p.y - 1.0 < height as real * EllipseRadius(u1 + u2) * sinT <= p.y
  {
    var r := EllipseRadius(u1 + u2);
    Vec2(RoundedScale(width, r, cosT) as real, RoundedScale(height, r, sinT) as real)
  }

  /** With draws in range, the point lies in the box [-width, width] x [-height, height]. */
  lemma RandomPointInEllipseBounded(width: nat, height: nat, u1: real, u2: real, cosT: real, sinT: real)
    requires 0.0 <= u1 <= 1.0 && 0.0 <= u2 <= 1.0 && -1.0 <= cosT <= 1.0 && -1.0 <= sinT <= 1.0
    ensures var p := GetRandomPointInEllipse(width, height, u1, u2, cosT, sinT);
            -(width as real) <= p.x <= width as real && -(height as real) <= p.y <= height as real
  {
    var r := EllipseRadius(u1 + u2);
    ScaledWithin(width, r, cosT);
    ScaledWithin(height, r, sinT);
  }
}
