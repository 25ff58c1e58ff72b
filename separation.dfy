/**
 * The room separation of SeparateRoomsSilently, on the rectangles alone: the
 * separating-axis penetration test, the two ways of pushing an overlapping
 * pair apart, one round over all ordered pairs, and the bounded repetition
 * of rounds. The generator applies these to its rooms in place; see
 * Dungeon.DungeonGenerator.SeparateRoomsSilently.
 */
module Separation {
  import opened Geometry

  /** The out parameters and the returned normal of AABBvsAABB. */
  datatype Penetration = Penetration(normal: Vec2, x: real, y: real)

  function Max(a: real, b: real): real {
    if a >= b then a else b
  }

  /** Half extents of both boxes along x, minus the distance of their centres along x. */
  function XOverlap(a: Rect, b: Rect): real {
    (a.Max().x - a.Min().x) / 2.0 + (b.Max().x - b.Min().x) / 2.0 - Abs(b.Center().x - a.Center().x)
  }

  /** The same along y. */
  function YOverlap(a: Rect, b: Rect): real {
    (a.Max().y - a.Min().y) / 2.0 + (b.Max().y - b.Min().y) / 2.0 - Abs(b.Center().y - a.Center().y)
  }

  /**
   * AABBvsAABB: when the boxes overlap on both axes, the penetration is along
   * the axis of LARGER overlap (ties go to y), with the other component 0;
   * otherwise both are 0. The normal is (-1, 0) or (0, 0) on x (a zero
   * normal whenever b is not to the left) and (0, -1) or (0, 1) on y; the
   * generator ignores it.
   */
  function AABBvsAABB(a: Rect, b: Rect): (p: Penetration)
    ensures p.x >= 0.0 && p.y >= 0.0 && (p.x == 0.0 || p.y == 0.0)
    ensures XOverlap(a, b) > 0.0 && YOverlap(a, b) > 0.0 ==>
      p.x + p.y == Max(XOverlap(a, b), YOverlap(a, b)) &&
      (p.x != 0.0 <==> XOverlap(a, b) > YOverlap(a, b))
    ensures !(XOverlap(a, b) > 0.0 && YOverlap(a, b) > 0.0) ==> p == Penetration(Vec2(0.0, 0.0), 0.0, 0.0)
    ensures p.normal in {Vec2(0.0, 0.0), Vec2(-1.0, 0.0), Vec2(0.0, -1.0), Vec2(0.0, 1.0)}
  {
    var n := b.Center().Minus(a.Center());
    var xOverlap := XOverlap(a, b);
    if xOverlap > 0.0 then
      var yOverlap := YOverlap(a, b);
      if yOverlap > 0.0 then
        if xOverlap > yOverlap then
          Penetration(if n.x < 0.0 then Vec2(-1.0, 0.0) else Vec2(0.0, 0.0), xOverlap, 0.0)
        else
          Penetration(if n.y < 0.0 then Vec2(0.0, -1.0) else Vec2(0.0, 1.0), 0.0, yOverlap)
      else Penetration(Vec2(0.0, 0.0), 0.0, 0.0)
    else Penetration(Vec2(0.0, 0.0), 0.0, 0.0)
  }

  /**
   * The separating-axis test agrees with Rect.Overlaps: both overlaps are
   * positive exactly when the rectangles overlap, whatever the signs of the
   * sizes.
   */
  lemma SatAgreesWithOverlaps(a: Rect, b: Rect)
    ensures XOverlap(a, b) > 0.0 && YOverlap(a, b) > 0.0 <==> a.Overlaps(b)
  {
  }

  /** The penetration is non-zero exactly for overlapping rectangles. */
  lemma PenetrationIffOverlap(a: Rect, b: Rect)
    ensures var p := AABBvsAABB(a, b); p.x + p.y > 0.0 <==> a.Overlaps(b)
  {
    SatAgreesWithOverlaps(a, b);
  }

  /**
   * The push of the simple avoidance behaviour for the pair (i, j): along the
   * axis on which the centres are further apart (x on a tie), the position
   * difference plus half the centre difference rounded up, scaled by the
   * multiplier and rounded up.
   */
  function PushVector(ri: Rect, rj: Rect, mult: real): (toAdd: Vec2)
    ensures IsIntegral(toAdd.x) && IsIntegral(toAdd.y)
    ensures toAdd.x == 0.0 || toAdd.y == 0.0
    ensures Abs(rj.Center().x - ri.Center().x) < Abs(rj.Center().y - ri.Center().y) ==> toAdd.x == 0.0
    ensures Abs(rj.Center().x - ri.Center().x) >= Abs(rj.Center().y - ri.Center().y) ==> toAdd.y == 0.0
  {
    var centerDiff := rj.Center().Minus(ri.Center());
    var xDiff := if Abs(centerDiff.x) >= Abs(centerDiff.y)
      then (rj.Position().x - ri.Position().x) + Ceil(centerDiff.x / 2.0) as real else 0.0;
    var yDiff := if Abs(centerDiff.x) >= Abs(centerDiff.y)
      then 0.0 else (rj.Position().y - ri.Position().y) + Ceil(centerDiff.y / 2.0) as real;
    var toAdd := Vec2(xDiff, yDiff).Scale(mult);
    assert xDiff == 0.0 ==> toAdd.x == 0.0 && Ceil(toAdd.x) == 0;
    assert yDiff == 0.0 ==> toAdd.y == 0.0 && Ceil(toAdd.y) == 0;
    Vec2(Ceil(toAdd.x) as real, Ceil(toAdd.y) as real)
  }

  /**
   * How an overlapping pair is pushed apart: the simple avoidance behaviour,
   * or the AABB push, which the silent separation applies as is and the
   * step-by-step separation rounds up to whole units first.
   */
  datatype Push = Avoidance | AABBExact | AABBRounded

  /** The half penetration the silent AABB mode adds to j and subtracts from i (no rounding). */
  function HalfPenetration(ri: Rect, rj: Rect): (h: Vec2)
    ensures h.x >= 0.0 && h.y >= 0.0 && (h.x == 0.0 || h.y == 0.0)
    ensures ri.Overlaps(rj) ==>
      2.0 * (h.x + h.y) == Max(XOverlap(ri, rj), YOverlap(ri, rj)) &&
      (h.x != 0.0 <==> XOverlap(ri, rj) > YOverlap(ri, rj))
  {
    SatAgreesWithOverlaps(ri, rj);
    var p := AABBvsAABB(ri, rj);
    Vec2(p.x / 2.0, p.y / 2.0)
  }

  /** One resolved pair: the avoidance push moves only j, the AABB pushes move j forward and i back. */
  function PairStep(rs: seq<Rect>, i: nat, j: nat, mult: real, push: Push): (r: seq<Rect>)
    requires i < |rs| && j < |rs| && i != j
    ensures |r| == |rs|
    ensures forall k :: 0 <= k < |rs| ==> r[k].Size() == rs[k].Size()
    ensures forall k :: 0 <= k < |rs| && k != i && k != j ==> r[k] == rs[k]
  {
    match push
    case Avoidance =>
      rs[j := rs[j].Moved(PushVector(rs[i], rs[j], mult))]
    case AABBExact =>
      var h := HalfPenetration(rs[i], rs[j]);
      rs[j := rs[j].Moved(h)][i := rs[i].Moved(Vec2(-h.x, -h.y))]
    case AABBRounded =>
      var h := HalfPenetration(rs[i], rs[j]);
      var toAdd := Vec2(Ceil(h.x) as real, Ceil(h.y) as real);
      rs[j := rs[j].Moved(toAdd)][i := rs[i].Moved(Vec2(-toAdd.x, -toAdd.y))]
  }

  /** The vector push leaves every rectangle but j where it was and moves j along one axis by whole units. */
  lemma VectorPushMovesOnlyJ(rs: seq<Rect>, i: nat, j: nat, mult: real)
    requires i < |rs| && j < |rs| && i != j
    ensures var r := PairStep(rs, i, j, mult, Avoidance);
            r[i] == rs[i] &&
            var d := r[j].Position().Minus(rs[j].Position());
            IsIntegral(d.x) && IsIntegral(d.y) && (d.x == 0.0 || d.y == 0.0)
  {
    var d := PushVector(rs[i], rs[j], mult);
    var r := PairStep(rs, i, j, mult, Avoidance);
    assert r[j].Position().Minus(rs[j].Position()) == d;
  }

  /**
   * The AABB push moves i and j by opposite vectors whose only non-zero
   * component is half the larger overlap (ties to y).
   */
  lemma AABBPushOpposite(rs: seq<Rect>, i: nat, j: nat)
    requires i < |rs| && j < |rs| && i != j && rs[i].Overlaps(rs[j])
    ensures var r := PairStep(rs, i, j, 0.0, AABBExact);
            var dj := r[j].Position().Minus(rs[j].Position());
            var di := r[i].Position().Minus(rs[i].Position());
            di == Vec2(-dj.x, -dj.y) &&
            (dj.x == 0.0 || dj.y == 0.0) &&
            2.0 * (dj.x + dj.y) == Max(XOverlap(rs[i], rs[j]), YOverlap(rs[i], rs[j])) &&
            (dj.x != 0.0 <==> XOverlap(rs[i], rs[j]) > YOverlap(rs[i], rs[j]))
  {
    var h := HalfPenetration(rs[i], rs[j]);
    var r := PairStep(rs, i, j, 0.0, AABBExact);
    assert r[j].Position().Minus(rs[j].Position()) == h;
    assert r[i].Position().Minus(rs[i].Position()) == Vec2(-h.x, -h.y);
  }

  /**
   * The rounded AABB push of the step-by-step separation: again opposite
   * moves along one axis, now by whole units, at least half the larger
   * overlap and less than one unit more.
   */
  lemma RoundedAABBPushOpposite(rs: seq<Rect>, i: nat, j: nat)
    requires i < |rs| && j < |rs| && i != j && rs[i].Overlaps(rs[j])
    ensures var r := PairStep(rs, i, j, 0.0, AABBRounded);
            var dj := r[j].Position().Minus(rs[j].Position());
            var di := r[i].Position().Minus(rs[i].Position());
            var half := Max(XOverlap(rs[i], rs[j]), YOverlap(rs[i], rs[j])) / 2.0;
            di == Vec2(-dj.x, -dj.y) &&
            IsIntegral(dj.x) && IsIntegral(dj.y) &&
            (dj.x == 0.0 || dj.y == 0.0) &&
            half <= dj.x + dj.y < half + 1.0
  {
    var h := HalfPenetration(rs[i], rs[j]);
    var toAdd := Vec2(Ceil(h.x) as real, Ceil(h.y) as real);
    var r := PairStep(rs, i, j, 0.0, AABBRounded);
    assert r[j].Position().Minus(rs[j].Position()) == toAdd;
    assert r[i].Position().Minus(rs[i].Position()) == Vec2(-toAdd.x, -toAdd.y);
    assert Ceil(0.0) == 0;
  }

  /**
   * One round from the pair (i, j) on: every ordered pair of distinct
   * indices, row by row, each pushed apart if it overlaps at that moment.
   * Returns the rectangles and whether any pair overlapped.
   */
  function RoundFrom(rs: seq<Rect>, mult: real, push: Push, i: nat, j: nat): (r: (seq<Rect>, bool))
    requires i <= |rs| && j <= |rs|
    ensures |r.0| == |rs|
    decreases |rs| - i, |rs| - j
  {
    if i == |rs| then (rs, false)
    else if j == |rs| then RoundFrom(rs, mult, push, i + 1, 0)
    else if i == j then RoundFrom(rs, mult, push, i, j + 1)
    else if rs[i].Overlaps(rs[j]) then
      var next := RoundFrom(PairStep(rs, i, j, mult, push), mult, push, i, j + 1);
      (next.0, true)
    else RoundFrom(rs, mult, push, i, j + 1)
  }

  /** A round moves rectangles but never resizes one. */
  lemma {:induction false} RoundKeepsSizes(rs: seq<Rect>, mult: real, push: Push, i: nat, j: nat)
    requires i <= |rs| && j <= |rs|
    ensures forall k :: 0 <= k < |rs| ==> RoundFrom(rs, mult, push, i, j).0[k].Size() == rs[k].Size()
    decreases |rs| - i, |rs| - j
  {
    if i == |rs| {
    } else if j == |rs| {
      RoundKeepsSizes(rs, mult, push, i + 1, 0);
    } else if i == j {
      RoundKeepsSizes(rs, mult, push, i, j + 1);
    } else if rs[i].Overlaps(rs[j]) {
      RoundKeepsSizes(PairStep(rs, i, j, mult, push), mult, push, i, j + 1);
    } else {
      RoundKeepsSizes(rs, mult, push, i, j + 1);
    }
  }

  /** A round in which no pair overlapped changed nothing, from any starting pair. */
  lemma {:induction false} QuietRoundChangesNothing(rs: seq<Rect>, mult: real, push: Push, i: nat, j: nat)
    requires i <= |rs| && j <= |rs|
    requires !RoundFrom(rs, mult, push, i, j).1
    ensures RoundFrom(rs, mult, push, i, j).0 == rs
    decreases |rs| - i, |rs| - j
  {
    if i == |rs| {
    } else if j == |rs| {
      QuietRoundChangesNothing(rs, mult, push, i + 1, 0);
    } else if i == j {
      QuietRoundChangesNothing(rs, mult, push, i, j + 1);
    } else if rs[i].Overlaps(rs[j]) {
    } else {
      QuietRoundChangesNothing(rs, mult, push, i, j + 1);
    }
  }

  /** roomSeparationStepMultiplier += roomSeparationStepMultiplier / (maxSeparationIterations / 6). */
  function NextMultiplier(mult: real, maxIter: int): real
    requires maxIter >= 6
  {
    mult + mult / (TruncDiv(maxIter, 6) as real)
  }

  /** With maxIter / 6 at least 1, a non-negative multiplier grows by at most itself, and a positive one strictly. */
  lemma NextMultiplierGrows(mult: real, maxIter: int)
    requires maxIter >= 6 && mult >= 0.0
    ensures mult <= NextMultiplier(mult, maxIter) <= 2.0 * mult
    ensures mult > 0.0 ==> mult < NextMultiplier(mult, maxIter)
  {
    var k := TruncDiv(maxIter, 6) as real;
    assert k >= 1.0;
    var q := mult / k;
    assert q * k == mult;
    assert 0.0 <= q <= mult by {
      if q < 0.0 {
        MulNonNegative(-q, k);
      }
      MulNonNegative(q, k - 1.0);
    }
  }

  /** The state the separation loop carries: rectangles, multiplier, iteration counter, last round's flag. */
  datatype SeparationState = SeparationState(rects: seq<Rect>, mult: real, iter: int, overlaps: bool)

  /**
   * The loop of SeparateRoomsSilently from a given state: while the counter
   * is below maxIter and the last round overlapped, grow the multiplier, run
   * a round and count it. A maxIter below 6 makes maxIter / 6 zero, a
   * floating-point division by zero in the source; it is only allowed when
   * no round runs.
   */
  function SeparateFrom(s: SeparationState, maxIter: int, push: Push): (r: SeparationState)
    requires s.iter >= maxIter || !s.overlaps || maxIter >= 6
    ensures |r.rects| == |s.rects|
    ensures r.iter >= s.iter
    ensures s.iter < maxIter && s.overlaps ==> r.iter <= maxIter
    ensures !(s.iter < maxIter && s.overlaps) ==> r == s
    ensures r.iter >= maxIter || !r.overlaps
    decreases maxIter - s.iter, s.overlaps
  {
    if s.iter < maxIter && s.overlaps then
      var mult := NextMultiplier(s.mult, maxIter);
      var round := RoundFrom(s.rects, mult, push, 0, 0);
      SeparateFrom(SeparationState(round.0, mult, s.iter + 1, round.1), maxIter, push)
    else s
  }

  /** The separation loop moves rectangles but never resizes one. */
  lemma {:induction false} SeparateKeepsSizes(s: SeparationState, maxIter: int, push: Push)
    requires s.iter >= maxIter || !s.overlaps || maxIter >= 6
    ensures forall k :: 0 <= k < |s.rects| ==> SeparateFrom(s, maxIter, push).rects[k].Size() == s.rects[k].Size()
    decreases maxIter - s.iter, s.overlaps
  {
    if s.iter < maxIter && s.overlaps {
      var mult := NextMultiplier(s.mult, maxIter);
      var round := RoundFrom(s.rects, mult, push, 0, 0);
      RoundKeepsSizes(s.rects, mult, push, 0, 0);
      SeparateKeepsSizes(SeparationState(round.0, mult, s.iter + 1, round.1), maxIter, push);
    }
  }

  /** No two distinct rectangles of the list overlap. */
  predicate PairwiseDisjoint(rs: seq<Rect>) {
    forall p, q :: 0 <= p < |rs| && 0 <= q < |rs| && p != q ==> !rs[p].Overlaps(rs[q])
  }

  /**
   * A round that reports no overlap from pair (i, j) on found every pair it
   * visited disjoint: the pairs in row i from column j on, and all later rows.
   */
  lemma {:induction false} QuietRoundMeansDisjoint(rs: seq<Rect>, mult: real, push: Push, i: nat, j: nat)
    requires i <= |rs| && j <= |rs|
    requires !RoundFrom(rs, mult, push, i, j).1
    ensures forall p, q :: i <= p < |rs| && 0 <= q < |rs| && p != q && (p > i || q >= j) ==> !rs[p].Overlaps(rs[q])
    decreases |rs| - i, |rs| - j
  {
    if i == |rs| {
    } else if j == |rs| {
      QuietRoundMeansDisjoint(rs, mult, push, i + 1, 0);
    } else if i == j {
      QuietRoundMeansDisjoint(rs, mult, push, i, j + 1);
    } else if rs[i].Overlaps(rs[j]) {
    } else {
      QuietRoundMeansDisjoint(rs, mult, push, i, j + 1);
    }
  }

  /**
   * When the separation loop stops before reaching the limit, its last round
   * found no overlap, so no two rectangles overlap.
   */
  lemma {:induction false} EarlyStopMeansSeparated(s: SeparationState, maxIter: int, push: Push)
    requires s.iter < maxIter && s.overlaps && maxIter >= 6
    ensures var r := SeparateFrom(s, maxIter, push);
            r.iter < maxIter ==> PairwiseDisjoint(r.rects)
    decreases maxIter - s.iter
  {
    var mult := NextMultiplier(s.mult, maxIter);
    var round := RoundFrom(s.rects, mult, push, 0, 0);
    var s' := SeparationState(round.0, mult, s.iter + 1, round.1);
    if s'.iter < maxIter && s'.overlaps {
      EarlyStopMeansSeparated(s', maxIter, push);
    } else if !round.1 {
      QuietRoundMeansDisjoint(s.rects, mult, push, 0, 0);
      QuietRoundChangesNothing(s.rects, mult, push, 0, 0);
    }
  }
}
