# Procedural dungeon generator: a Dafny model

This project models the rectangle-dungeon pipeline of a Unity procedural dungeon generator. `GenerateDungeon` runs the stages in order:

1. Scatter rooms in an ellipse, and top up the main-room tally with forced main rooms.
2. Push overlapping rooms apart for a bounded number of rounds.
3. Drop the rooms that still overlap.
4. Pick the main rooms.
5. Re-add some triangulation edges to the spanning tree.
6. Carve halls between the rooms each edge joins: straight horizontal, straight vertical, or an L of two halls.
7. Re-admit the secondary rooms that a hall touches.

Along the way the stages keep the layout's bounding box (`mapRect`) up to date.

The model also covers the supporting code:

- `Room`, a mutable rectangle compared by reference;
- the normal-distribution generator's cumulative table and its lookup;
- the segment, triangle and clamp helpers of `MathUtils`;
- the orientation, distance, extreme-point, pruning, rotation and ellipse helpers of `ShapeUtils`;
- `LR.SideHelper.Other`.

Layout:

- `geometry.dfy`:
  - `Vec2`, and Unity's `Rect` as a value, with its property setters as functions;
  - `Mathf.CeilToInt`, the `(int)` cast and C#'s integer division.
- `room.dfy`: the `Room` class. Each property setter is a method that reassigns the private rectangle.
- `lr.dfy`: the `Side` enum and `Other`.
- `map_rect.dfy`: `UpdateMapRect` as a function on rectangles, and its fold over a list.
- `math_utils.dfy`, `shape_utils.dfy`: the helpers listed above.
- `wrappers.dfy`: the `Option` type, whose `None` stands for an input on which the source throws.
- `normal_random.dfy`: the `NormalRandomGenerator` class. The density is an arbitrary function `int -> real`.
- `separation.dfy`: the separation stage written as functions on the rooms' rectangles, and what they guarantee:
  - the SAT penetration test;
  - the two push rules;
  - one round over all ordered pairs;
  - the loop of rounds.
- `halls.dfy`: the hall geometry for one connection, given the rectangles of its two rooms.
- `dungeon_specs.dfy`: specification functions for the list stages, and the lemmas about them:
  - the cleanup pass;
  - main-room selection;
  - edge re-addition;
  - endpoint resolution;
  - the halls of a tree;
  - the secondary-room scan.
- `dungeon.dfy`: the `DungeonGenerator` class. Its fields are the generator's lists, counters and `mapRect`, and its methods are the stages. Each method is proved against the functions of `dungeon_specs.dfy` and `separation.dfy`.

Random draws enter as parameters:

- `RoomDraw`: the room's size, the two uniform draws and the angle's cosine and sine;
- shuffles: arbitrary permutations, stated as multiset equality with the original list.

The Delaunay triangulation and the minimum spanning tree come from an external library. They enter as sequences of `LineSegment` objects, compared by reference.

## Model

| member | source | states |
|---|---|---|
| Geometry.Abs | Assets/Scripts/ProceduralGeneration/DungeonGenerator.cs:271 | `Mathf.Abs` is non-negative and equals the argument or its negation |
| Geometry.Ceil | Assets/Scripts/ProceduralGeneration/DungeonGenerator.cs:280-281 | `Mathf.CeilToInt(v)` is the integer c with v ≤ c < v + 1 |
| Geometry.Trunc | Assets/Scripts/ProceduralGeneration/DungeonGenerator.cs:521 | the `(int)` cast truncates toward zero: \|t\| ≤ \|v\| < \|t\| + 1, and the sign is kept |
| Geometry.TruncDiv | Assets/Scripts/ProceduralGeneration/DungeonGenerator.cs:253 | C# integer division rounds toward zero: \|q\| = \|a\| / b, and the sign of a is kept |
| Geometry.OverlapsSymmetric | Assets/Scripts/ProceduralGeneration/Room.cs:29-32 | strict rectangle overlap is symmetric |
| Rooms.Room.constructor | Assets/Scripts/ProceduralGeneration/Room.cs:25-27 | `Room(x, y, w, h)` reads back x, y, width and height as given, with xMax = x + w and yMax = y + h |
| Rooms.Room.Empty | Assets/Scripts/ProceduralGeneration/Room.cs:10-13 | `Room()` holds the zero rectangle |
| Rooms.Room.FromRect | Assets/Scripts/ProceduralGeneration/Room.cs:20-23 | `Room(Rect)` holds that rectangle |
| Rooms.Room.Copy | Assets/Scripts/ProceduralGeneration/Room.cs:15-18 | the copy constructor copies the rectangle value |
| Rooms.Room.SetPosition | Assets/Scripts/ProceduralGeneration/Room.cs:39-43 | setting the position moves the rectangle and keeps its size |
| Rooms.Room.SetSize | Assets/Scripts/ProceduralGeneration/Room.cs:45-49 | setting the size keeps the position |
| Rooms.Room.SetCenter | Assets/Scripts/ProceduralGeneration/Room.cs:51-55 | setting the center keeps the size |
| Rooms.Room.SetWidth | Assets/Scripts/ProceduralGeneration/Room.cs:57-61 | setting the width keeps the position and the height |
| Rooms.Room.SetHeight | Assets/Scripts/ProceduralGeneration/Room.cs:63-67 | setting the height keeps the position and the width |
| Rooms.Room.SetX | Assets/Scripts/ProceduralGeneration/Room.cs:69-73 | setting x keeps y and the size |
| Rooms.Room.SetY | Assets/Scripts/ProceduralGeneration/Room.cs:75-79 | setting y keeps x and the size |
| Rooms.Room.SetXMin | Assets/Scripts/ProceduralGeneration/Room.cs:81-85 | setting xMin keeps xMax, so the width changes |
| Rooms.Room.SetXMax | Assets/Scripts/ProceduralGeneration/Room.cs:87-91 | setting xMax keeps xMin and changes only the width |
| Rooms.Room.SetYMin | Assets/Scripts/ProceduralGeneration/Room.cs:93-97 | setting yMin keeps yMax, so the height changes |
| Rooms.Room.SetYMax | Assets/Scripts/ProceduralGeneration/Room.cs:99-103 | setting yMax keeps yMin and changes only the height |
| Rooms.Room.SetMin | Assets/Scripts/ProceduralGeneration/Room.cs:105-109 | setting min keeps max |
| Rooms.Room.SetMax | Assets/Scripts/ProceduralGeneration/Room.cs:111-115 | setting max keeps min |
| Rooms.Room.SetRect | Assets/Scripts/ProceduralGeneration/Room.cs:129-140 | the Rect setter replaces the rectangle and keeps the main-room flag |
| Rooms.Room.SetIsMainRoom | Assets/Scripts/ProceduralGeneration/Room.cs:142-153 | the flag setter keeps the rectangle |
| Rooms.RoomContainsHalfOpen | Assets/Scripts/ProceduralGeneration/Room.cs:34-37 | a room contains a point exactly when it lies in the half-open box: lower edges included, upper edges excluded |
| Rooms.RoomOverlapsSymmetric | Assets/Scripts/ProceduralGeneration/Room.cs:29-32 | `Room.Overlaps` is the strict rectangle test, and it is symmetric |
| Rooms.CopyThenMove | Assets/Scripts/ProceduralGeneration/Room.cs:15-18 | moving a copy leaves the original's rectangle unchanged |
| Rooms.EqualRectsDistinctRooms | Assets/Scripts/ProceduralGeneration/Room.cs:5-8 | two rooms with equal rectangles are distinct list members, because rooms compare by reference |
| LR.Other | Assets/Scripts/Unity-delaunay/Delaunay/LR.cs:13-16 | the other side differs from the given one, and its ordinal is 1 minus the given side's ordinal (LEFT = 0, RIGHT = 1) |
| LR.OtherLeftIsRight | Assets/Scripts/Unity-delaunay/Delaunay/LR.cs:15 | Other(LEFT) = RIGHT |
| LR.OtherRightIsLeft | Assets/Scripts/Unity-delaunay/Delaunay/LR.cs:15 | Other(RIGHT) = LEFT |
| LR.OtherInvolution | Assets/Scripts/Unity-delaunay/Delaunay/LR.cs:13-16 | Other(Other(s)) = s |
| MapBounds.Extend | Assets/Scripts/ProceduralGeneration/DungeonGenerator.cs:411-430 | the new min edges are the minima. A max edge grows to the rectangle's only when that axis's min edge did not move, because of the `else if` |
| MapBounds.ExtendNeverShrinks | Assets/Scripts/ProceduralGeneration/DungeonGenerator.cs:411-430 | UpdateMapRect never shrinks the box |
| MapBounds.ExtendCoversUnlessBothSides | Assets/Scripts/ProceduralGeneration/DungeonGenerator.cs:413-429 | the box covers the rectangle along an axis unless the rectangle sticks out on both sides of that axis |
| MapBounds.ElseIfMissesMaxSide | Assets/Scripts/ProceduralGeneration/DungeonGenerator.cs:413-420 | a rectangle that sticks out on both sides widens only the min side and is left partly outside |
| MapBounds.ExtendAll | Assets/Scripts/ProceduralGeneration/DungeonGenerator.cs:441 | repeated UpdateMapRect calls never shrink the box |
| MapBounds.ExtendAllAppend | Assets/Scripts/ProceduralGeneration/DungeonGenerator.cs:723 | extending by two lists in turn equals extending by their concatenation |
| MathUtils.Vec2ToInt | Assets/Scripts/Utils/MathUtils.cs:6-11 | each component is truncated toward zero: integral, no larger in magnitude, less than one away, and of the same sign |
| MathUtils.Vec2ToCeilInt | Assets/Scripts/Utils/MathUtils.cs:13-18 | each component becomes an integer r with v ≤ r < v + 1 |
| MathUtils.UnitIntervalCleared | Assets/Scripts/Utils/MathUtils.cs:55-66 | the sign-split comparison of numerator and denominator is the test 0 ≤ n/d ≤ 1 |
| MathUtils.LineIntersects | Assets/Scripts/Utils/MathUtils.cs:35-80 | false when the denominator is zero; otherwise true exactly when alpha and beta both lie in [0, 1] |
| MathUtils.LineIntersectsFindsCrossing | Assets/Scripts/Utils/MathUtils.cs:35-80 | when it answers true, alpha and beta in [0, 1] name one point that lies on both segments |
| MathUtils.TriangleArea | Assets/Scripts/Utils/MathUtils.cs:139-142 | the area is non-negative |
| MathUtils.TriangleAreaPermutationInvariant | Assets/Scripts/Utils/MathUtils.cs:139-142 | the area is unchanged when the three vertices are permuted |
| MathUtils.IsPointInsideTriangle | Assets/Scripts/Utils/MathUtils.cs:146-162 | the point is inside exactly when both barycentric sides have the sign of the doubled area and their magnitudes sum to less than its magnitude; a degenerate triangle contains nothing |
| MathUtils.VerticesNotInside | Assets/Scripts/Utils/MathUtils.cs:146-162 | the inside test is strict, so no vertex is inside its own triangle |
| MathUtils.DegenerateTriangleEmpty | Assets/Scripts/Utils/MathUtils.cs:154-161 | nothing is inside a triangle with zero signed area |
| MathUtils.InsideIndependentOfWinding | Assets/Scripts/Utils/MathUtils.cs:146-162 | swapping p1 and p2 does not change the answer |
| MathUtils.ClampVector3 | Assets/Scripts/Utils/MathUtils.cs:188-194 | with min ≤ max, each component lands in [min, max], and in-range components are unchanged |
| MathUtils.ClampIdempotent | Assets/Scripts/Utils/MathUtils.cs:188-194 | clamping twice is clamping once |
| ShapeUtils.CompareTo | Assets/ProceduralDungeonGenerator/Scripts/Utils/ShapeUtils.cs:126 | `int.CompareTo` returns -1, 0 or 1 according to the order of its operands |
| ShapeUtils.FindTurn | Assets/ProceduralDungeonGenerator/Scripts/Utils/ShapeUtils.cs:121-127 | the result is -1, 0 or 1: 1 exactly when x1 < x2, and 0 exactly when x1 = x2, over the truncated cross products |
| ShapeUtils.FindTurnAntisymmetric | Assets/ProceduralDungeonGenerator/Scripts/Utils/ShapeUtils.cs:121-127 | FindTurn(p, r, q) = -FindTurn(p, q, r) |
| ShapeUtils.FindTurnDegenerate | Assets/ProceduralDungeonGenerator/Scripts/Utils/ShapeUtils.cs:121-127 | FindTurn(p, p, r) = 0 |
| ShapeUtils.Dist | Assets/ProceduralDungeonGenerator/Scripts/Utils/ShapeUtils.cs:103-108 | the squared distance is non-negative and zero for equal points |
| ShapeUtils.DistSymmetric | Assets/ProceduralDungeonGenerator/Scripts/Utils/ShapeUtils.cs:103-108 | the squared distance is symmetric |
| ShapeUtils.GetExtremePoint | Assets/ProceduralDungeonGenerator/Scripts/Utils/ShapeUtils.cs:86-101 | returns the first interior strict local maximum in x or y, or points[0] when there is none |
| ShapeUtils.PruneFrom | Assets/ProceduralDungeonGenerator/Scripts/Utils/ShapeUtils.cs:154-167 | the scan from i keeps the prefix before i and the last vertex, and yields an order-preserving subsequence |
| ShapeUtils.Prune | Assets/ProceduralDungeonGenerator/Scripts/Utils/ShapeUtils.cs:149-169 | the result keeps the first and last vertices, is an order-preserving subsequence, and has at least two vertices |
| ShapeUtils.RemoveOutOfDirectionVertices | Assets/ProceduralDungeonGenerator/Scripts/Utils/ShapeUtils.cs:149-169 | no result exactly when there are fewer than two vertices, where the source's `vertices[1]` throws; otherwise the loop with its `i--` rewind computes Prune, keeping the first and last vertices in an order-preserving subsequence |
| ShapeUtils.RotateIsPermutation | Assets/ProceduralDungeonGenerator/Scripts/Utils/ShapeUtils.cs:133-143 | the reorder is a rotation by Count/2, a permutation with the same length |
| ShapeUtils.OptimizeVertices | Assets/ProceduralDungeonGenerator/Scripts/Utils/ShapeUtils.cs:129-147 | no result exactly when there are fewer than two vertices (the source throws on `vertices[1]`); otherwise prune, rotate, prune, with at least two vertices and no more than the input |
| ShapeUtils.EllipseRadius | Assets/ProceduralDungeonGenerator/Scripts/Utils/ShapeUtils.cs:186-196 | the folded radius is 1 - \|u - 1\|, which lies in [0, 1] for u in [0, 2] |
| ShapeUtils.RoundedScale | Assets/ProceduralDungeonGenerator/Scripts/Utils/ShapeUtils.cs:197 | `CeilToInt(w·r·c)` is the smallest integer at or above the product |
| ShapeUtils.ScaledWithin | Assets/ProceduralDungeonGenerator/Scripts/Utils/ShapeUtils.cs:197 | with r in [0, 1] and the cosine or sine in [-1, 1], the rounded coordinate stays within ±w |
| ShapeUtils.GetRandomPointInEllipse | Assets/ProceduralDungeonGenerator/Scripts/Utils/ShapeUtils.cs:183-198 | the point has integer coordinates, each the ceiling of size·radius·cos or sin |
| ShapeUtils.RandomPointInEllipseBounded | Assets/ProceduralDungeonGenerator/Scripts/Utils/ShapeUtils.cs:183-198 | for draws in range, the point lies within ±width and ±height |
| NormalRandom.InitialMean | Assets/Scripts/Utils/RandomNumberGenerators/NormalRandomGenerator.cs:30 | Mean = (max - min)/2 + min with integer division: min ≤ Mean ≤ max, and Mean sits at the middle, rounded down |
| NormalRandom.Table | Assets/Scripts/Utils/RandomNumberGenerators/NormalRandomGenerator.cs:46-57 | the table's keys are exactly min..max-1 |
| NormalRandom.TableMinIsMinimum | Assets/Scripts/Utils/RandomNumberGenerators/NormalRandomGenerator.cs:59 | `Values.Min()` is a table entry and no larger than any entry |
| NormalRandom.TableMaxIsMaximum | Assets/Scripts/Utils/RandomNumberGenerators/NormalRandomGenerator.cs:60 | `Values.Max()` is a table entry and no smaller than any entry |
| NormalRandom.CumulativeMonotone | Assets/Scripts/Utils/RandomNumberGenerators/NormalRandomGenerator.cs:46-57 | with a non-negative density the running sums never decrease |
| NormalRandom.CumulativeAtLeastDensity | Assets/Scripts/Utils/RandomNumberGenerators/NormalRandomGenerator.cs:46-57 | with a non-negative density, the running sum at i is at least the density at i, hence non-negative |
| NormalRandom.PickedProb | Assets/Scripts/Utils/RandomNumberGenerators/NormalRandomGenerator.cs:84-87 | for a draw in [0, 1] the picked value lies in [-min, max - 2 min]: the low end is subtracted, not added back as the comment says |
| NormalRandom.ExtremesAreEnds | Assets/Scripts/Utils/RandomNumberGenerators/NormalRandomGenerator.cs:46-60 | hence the minimum is the first entry and the maximum the last |
| NormalRandom.PickedWithinTable | Assets/Scripts/Utils/RandomNumberGenerators/NormalRandomGenerator.cs:86-95 | for a draw in [0, 1], pickedProb is at most the last entry |
| NormalRandom.ScaledDrawBelow | Assets/Scripts/Utils/RandomNumberGenerators/NormalRandomGenerator.cs:86-87 | a draw in [0, 1] scaled to a range of non-negative extremes stays at or below the upper end |
| NormalRandom.FirstReachingUnique | Assets/Scripts/Utils/RandomNumberGenerators/NormalRandomGenerator.cs:89-97 | the lookup's answer (the first index whose entry reaches pickedProb, or the throw) is unique |
| NormalRandom.NormalRandomGenerator.constructor | Assets/Scripts/Utils/RandomNumberGenerators/NormalRandomGenerator.cs:23-61 | records Min, Max and the integer Mean; the table is the running sums; the two extremes are the table's minimum and maximum |
| NormalRandom.NormalRandomGenerator.BuildTable | Assets/Scripts/Utils/RandomNumberGenerators/NormalRandomGenerator.cs:46-57 | the filling loop builds exactly the running-sum table |
| NormalRandom.NormalRandomGenerator.TableExtremes | Assets/Scripts/Utils/RandomNumberGenerators/NormalRandomGenerator.cs:59-60 | the two scans compute the table's minimum and maximum |
| NormalRandom.NormalRandomGenerator.Create | Assets/Scripts/Utils/RandomNumberGenerators/NormalRandomGenerator.cs:23-61 | construction fails exactly when min ≥ max, where the empty table makes `Values.Min()` throw |
| NormalRandom.NormalRandomGenerator.Next | Assets/Scripts/Utils/RandomNumberGenerators/NormalRandomGenerator.cs:82-98 | returns the smallest i in [Min, Max) whose entry is ≥ pickedProb. With a non-negative density and a draw in [0, 1] it never throws |
| NormalRandom.NormalRandomGenerator.SetMean | Assets/Scripts/Utils/RandomNumberGenerators/NormalRandomGenerator.cs:13 | the Mean setter leaves the table and its extremes alone |
| NormalRandom.NormalRandomGenerator.SetStandardDeviation | Assets/Scripts/Utils/RandomNumberGenerators/NormalRandomGenerator.cs:12 | the StandardDeviation setter leaves the table and its extremes alone |
| NormalRandom.OverrideDoesNotChangeNext | Assets/Scripts/ProceduralGeneration/DungeonGenerator.cs:174-178 | overriding Mean and StandardDeviation after construction does not change what Next returns |
| Separation.AABBvsAABB | Assets/Scripts/ProceduralGeneration/DungeonGenerator.cs:952-1001 | penetrations are non-negative and at most one is non-zero. When both axes overlap, the non-zero one is the larger overlap, and x is chosen only when strictly larger, so ties go to y. Otherwise both are zero. The normal is one of the four written vectors |
| Separation.SatAgreesWithOverlaps | Assets/Scripts/ProceduralGeneration/DungeonGenerator.cs:963-977 | both SAT overlaps are positive exactly when the rectangles overlap |
| Separation.PenetrationIffOverlap | Assets/Scripts/ProceduralGeneration/DungeonGenerator.cs:952-1001 | the penetration is non-zero exactly when the rectangles overlap |
| Separation.PushVector | Assets/Scripts/ProceduralGeneration/DungeonGenerator.cs:268-281 | the vector push moves along one axis only, the one where the centres differ more, and by whole units |
| Separation.HalfPenetration | Assets/Scripts/ProceduralGeneration/DungeonGenerator.cs:383-385 | both components are non-negative and at most one is non-zero. For overlapping rectangles, twice the vector's length is the larger overlap, and x is the moved axis exactly when its overlap is strictly larger |
| Separation.PairStep | Assets/Scripts/ProceduralGeneration/DungeonGenerator.cs:260-303 | resolving one pair keeps the list length and every size, and changes no room other than i and j |
| Separation.NextMultiplierGrows | Assets/Scripts/ProceduralGeneration/DungeonGenerator.cs:253 | with maxSeparationIterations / 6 at least 1, a non-negative multiplier grows by at most itself, so at most doubles, and a positive one strictly grows |
| Separation.VectorPushMovesOnlyJ | Assets/Scripts/ProceduralGeneration/DungeonGenerator.cs:268-283 | the vector push leaves room i and moves room j along one axis by whole units |
| Separation.AABBPushOpposite | Assets/Scripts/ProceduralGeneration/DungeonGenerator.cs:378-388 | the silent AABB push moves i and j by opposite vectors along one axis, which together cover the larger overlap |
| Separation.RoundedAABBPushOpposite | Assets/Scripts/ProceduralGeneration/DungeonGenerator.cs:288-303 | the step-mode AABB push moves i and j by opposite whole-unit vectors along one axis, of ceiling length half the larger overlap |
| Separation.RoundKeepsSizes | Assets/Scripts/ProceduralGeneration/DungeonGenerator.cs:343-391 | a round moves rooms but never resizes one |
| Separation.RoundFrom | Assets/Scripts/ProceduralGeneration/DungeonGenerator.cs:343-391 | one round over the ordered pairs from (i, j) on keeps the room count |
| Separation.QuietRoundChangesNothing | Assets/Scripts/ProceduralGeneration/DungeonGenerator.cs:343-391 | a round that found no overlap moved nothing |
| Separation.QuietRoundMeansDisjoint | Assets/Scripts/ProceduralGeneration/DungeonGenerator.cs:343-391 | a round that found no overlap saw every pair it visited disjoint |
| Separation.SeparateFrom | Assets/Scripts/ProceduralGeneration/DungeonGenerator.cs:339-393 | the loop keeps the room count, never counts past maxSeparationIterations, and stops at the limit or after a quiet round |
| Separation.SeparateKeepsSizes | Assets/Scripts/ProceduralGeneration/DungeonGenerator.cs:339-393 | the separation loop never changes a room's width or height |
| Separation.EarlyStopMeansSeparated | Assets/Scripts/ProceduralGeneration/DungeonGenerator.cs:339-393 | a loop that stops before the limit leaves no two rooms overlapping |
| Halls.Midpoint | Assets/Scripts/ProceduralGeneration/DungeonGenerator.cs:520-521 | the midpoint of the two centres, truncated, has integer coordinates |
| Halls.HalfBounds | Assets/Scripts/ProceduralGeneration/DungeonGenerator.cs:525-571 | `hallTickness / 2` in integer division: for a non-negative thickness, a non-negative value that is half the thickness rounded down |
| Halls.StraightHorizontalRowsOverlap | Assets/Scripts/ProceduralGeneration/DungeonGenerator.cs:525-528 | when both rooms span the midpoint's row (non-negative thickness), their vertical extents overlap |
| Halls.StraightVerticalIgnoresB | Assets/Scripts/ProceduralGeneration/DungeonGenerator.cs:553-556 | the vertical test holds exactly when room A spans the midpoint's column: room B is never consulted |
| Halls.HorizontalHallShape | Assets/Scripts/ProceduralGeneration/DungeonGenerator.cs:532-543 | the hall has height hallTickness, a non-negative width, an integral y, and starts at the right edge of the room further left |
| Halls.VerticalHallShape | Assets/Scripts/ProceduralGeneration/DungeonGenerator.cs:560-571 | the hall has width hallTickness, a non-negative height, an integral x, and starts at the top edge of the lower room |
| Halls.LHalls | Assets/Scripts/ProceduralGeneration/DungeonGenerator.cs:579-707 | the L fallback gives exactly two halls: xHall's height and yHall's width are hallTickness |
| Halls.HallsBetween | Assets/Scripts/ProceduralGeneration/DungeonGenerator.cs:514-707 | one straight hall: horizontal with height hallTickness, or vertical with width hallTickness, with a length from Mathf.Abs and so ≥ 0. Otherwise the two L halls |
| Halls.HorizontalHallBridgesGap | Assets/Scripts/ProceduralGeneration/DungeonGenerator.cs:532-538 | with room B to the right across a gap, the horizontal hall spans exactly from A's right edge to B's left edge |
| Halls.VerticalHallBridgesGap | Assets/Scripts/ProceduralGeneration/DungeonGenerator.cs:560-566 | with room B above across a gap, the vertical hall spans exactly from A's top to B's bottom |
| Halls.StraightHorizontalExample | Assets/Scripts/ProceduralGeneration/DungeonGenerator.cs:524-547 | two rooms side by side get one horizontal hall at the midpoint row |
| Halls.LShapeExample | Assets/Scripts/ProceduralGeneration/DungeonGenerator.cs:579-646 | two diagonal rooms get the horizontal-first L pair |
| Halls.OffsetColumnsGetStraightHall | Assets/Scripts/ProceduralGeneration/DungeonGenerator.cs:550-577 | rooms at (0, 0) and (5, 30), both 10 by 10, get one straight vertical hall of width 2 from y = 10 to y = 30, not an L |
| Halls.VerticalHallMayMissRoomB | Assets/Scripts/ProceduralGeneration/DungeonGenerator.cs:553-556 | the vertical test checks room A twice, so a vertical hall can be built that does not reach room B |
| Halls.VerticalHallOffsetDependsOnOrder | Assets/Scripts/ProceduralGeneration/DungeonGenerator.cs:560-571 | the "RoomA's top" branch offsets by +hallTickness/2, so swapping the rooms moves the hall |
| Halls.LHallNegativeLength | Assets/Scripts/ProceduralGeneration/DungeonGenerator.cs:592-605 | an L hall can get a negative height |
| DungeonSpecs.RoomEdge.constructor | Assets/Scripts/ProceduralGeneration/DungeonGenerator.cs:1025-1030 | the edge records its segment and its two rooms |
| DungeonSpecs.RoomEdge.SetLineSegment | Assets/Scripts/ProceduralGeneration/DungeonGenerator.cs:1032-1043 | the setter changes only the segment |
| DungeonSpecs.RoomEdge.SetP0Rect | Assets/Scripts/ProceduralGeneration/DungeonGenerator.cs:1045-1056 | the setter changes only the first room |
| DungeonSpecs.RoomEdge.SetP1Rect | Assets/Scripts/ProceduralGeneration/DungeonGenerator.cs:1058-1069 | the setter changes only the second room |
| DungeonSpecs.ResolveFrom | Assets/Scripts/ProceduralGeneration/DungeonGenerator.cs:496-510 | each room the scan records is a main room, or the value it started with |
| DungeonSpecs.Resolve | Assets/Scripts/ProceduralGeneration/DungeonGenerator.cs:493-510 | each recorded room is null or a main room |
| DungeonSpecs.ResolveFromFinds | Assets/Scripts/ProceduralGeneration/DungeonGenerator.cs:496-510 | the scan's r0 is a later room containing p0, or unchanged; r1 is a later room containing p1 but not p0 (the `else if`), or unchanged |
| DungeonSpecs.ResolveFinds | Assets/Scripts/ProceduralGeneration/DungeonGenerator.cs:493-510 | r0 is set exactly when some main room contains p0; r1 exactly when some main room contains p1 and not p0 |
| DungeonSpecs.SegmentInsideOneRoomUnresolved | Assets/Scripts/ProceduralGeneration/DungeonGenerator.cs:498-505 | when every room containing p1 also contains p0, r1 stays null |
| DungeonSpecs.Survivors | Assets/Scripts/ProceduralGeneration/DungeonGenerator.cs:398-406 | the inner cleanup loop never lengthens the list |
| DungeonSpecs.CleanStep | Assets/Scripts/ProceduralGeneration/DungeonGenerator.cs:398-406 | one cleanup row never lengthens the list |
| DungeonSpecs.SurvivorsFacts | Assets/Scripts/ProceduralGeneration/DungeonGenerator.cs:398-406 | the inner cleanup loop keeps exactly the later rooms that do not overlap room i, in order |
| DungeonSpecs.CleanStepFacts | Assets/Scripts/ProceduralGeneration/DungeonGenerator.cs:398-406 | one row of the cleanup keeps the prefix up to i and drops exactly the later rooms overlapping room i |
| DungeonSpecs.DroppedOverlaps | Assets/Scripts/ProceduralGeneration/DungeonGenerator.cs:398-406 | a room dropped in row i overlaps room i |
| DungeonSpecs.CleanStepExtendsDisjoint | Assets/Scripts/ProceduralGeneration/DungeonGenerator.cs:396-407 | each row extends the disjoint prefix by one |
| DungeonSpecs.CleanFromFacts | Assets/Scripts/ProceduralGeneration/DungeonGenerator.cs:396-407 | the cleanup keeps an order-preserving subsequence and leaves the processed prefix alone |
| DungeonSpecs.CleanFromDisjoint | Assets/Scripts/ProceduralGeneration/DungeonGenerator.cs:396-407 | the cleanup leaves no two rooms overlapping |
| DungeonSpecs.CleanFromRemovedOverlap | Assets/Scripts/ProceduralGeneration/DungeonGenerator.cs:396-407 | every removed room overlaps a survivor that comes before it in the list: the earlier room wins |
| DungeonSpecs.CleanedFacts | Assets/Scripts/ProceduralGeneration/DungeonGenerator.cs:395-407 | the whole pass leaves pairwise-disjoint rooms in their original order, keeps the first room, and removes only rooms overlapping an earlier survivor |
| DungeonSpecs.CleanedRemovedOverlapsEarlier | Assets/Scripts/ProceduralGeneration/DungeonGenerator.cs:395-407 | for distinct rooms, the room at each removed index overlaps a survivor at a smaller index |
| DungeonSpecs.CleanFromKeepsDisjoint | Assets/Scripts/ProceduralGeneration/DungeonGenerator.cs:396-407 | on an already disjoint list the pass removes nothing |
| DungeonSpecs.SubseqKeepsDisjoint | Assets/Scripts/ProceduralGeneration/DungeonGenerator.cs:438-442 | removing rooms from a pairwise-disjoint list, in order, keeps it pairwise disjoint |
| DungeonSpecs.SurvivorsAll | Assets/Scripts/ProceduralGeneration/DungeonGenerator.cs:398-406 | if room i overlaps none of the later rooms, the row keeps them all |
| DungeonSpecs.SelectSplits | Assets/Scripts/ProceduralGeneration/DungeonGenerator.cs:432-447 | the selection splits the rooms into remaining and selected with none lost or duplicated (multiset equality). At most the cap are selected, each meeting both thresholds and not yet a main room |
| DungeonSpecs.SelectKeepsOrder | Assets/Scripts/ProceduralGeneration/DungeonGenerator.cs:432-447 | selected and remaining rooms both keep their relative order |
| DungeonSpecs.SelectFacts | Assets/Scripts/ProceduralGeneration/DungeonGenerator.cs:432-447 | on disjoint rooms: selected rooms are capped and qualifying, and both parts stay pairwise disjoint |
| DungeonSpecs.SelectTakesEachOnce | Assets/Scripts/ProceduralGeneration/DungeonGenerator.cs:438-442 | no room is selected twice |
| DungeonSpecs.SelectUnderCapTakesAll | Assets/Scripts/ProceduralGeneration/DungeonGenerator.cs:436-446 | if fewer than the cap were selected, every qualifying room that was not already a main room moved |
| DungeonSpecs.QualifyingRooms | Assets/Scripts/ProceduralGeneration/DungeonGenerator.cs:438 | the rooms meeting both main-room thresholds, in list order |
| DungeonSpecs.SelectTakesFirstQualifying | Assets/Scripts/ProceduralGeneration/DungeonGenerator.cs:432-447 | for distinct rooms none of which is already a main room, the selected rooms are the first cap qualifying rooms, in order |
| DungeonSpecs.Outside | Assets/Scripts/ProceduralGeneration/DungeonGenerator.cs:476-482 | there are no more candidate edges than triangulation edges |
| DungeonSpecs.OutsideMembers | Assets/Scripts/ProceduralGeneration/DungeonGenerator.cs:476-482 | the candidate edges are exactly the triangulation edges not in the tree |
| DungeonSpecs.OutsidePrefix | Assets/Scripts/ProceduralGeneration/DungeonGenerator.cs:476-482 | the candidates of a prefix of the triangulation are a prefix of the candidates |
| DungeonSpecs.OutsideAppend | Assets/Scripts/ProceduralGeneration/DungeonGenerator.cs:476-482 | the candidates of a concatenation are the concatenated candidates |
| DungeonSpecs.OutsideSizeOfPermutation | Assets/Scripts/ProceduralGeneration/DungeonGenerator.cs:473-482 | shuffling the triangulation does not change how many candidates there are |
| DungeonSpecs.OutsideSameMembers | Assets/Scripts/ProceduralGeneration/DungeonGenerator.cs:473-478 | shuffling the tree does not change the candidates |
| DungeonSpecs.AddedBackEdges | Assets/Scripts/ProceduralGeneration/DungeonGenerator.cs:467-484 | for any shuffles: the number appended is the target, capped by the candidates available, and every appended edge is a triangulation edge not in the tree. With enough target, all candidates are appended |
| DungeonSpecs.EndRects | Assets/Scripts/ProceduralGeneration/DungeonGenerator.cs:491-512 | one pair of end rectangles per spanning-tree segment |
| DungeonSpecs.PlannedHallsStop | Assets/Scripts/ProceduralGeneration/DungeonGenerator.cs:514-520 | once an edge with a missing room stops the hall loop, later segments change nothing |
| DungeonSpecs.PlannedHallsCompletes | Assets/Scripts/ProceduralGeneration/DungeonGenerator.cs:491-520 | the hall loop completes exactly when every segment's two endpoints resolve to rooms |
| DungeonSpecs.PlannedHallsBuilt | Assets/Scripts/ProceduralGeneration/DungeonGenerator.cs:514-708 | a completed loop built, in order, the halls of every segment |
| DungeonSpecs.PlannedHallsStopped | Assets/Scripts/ProceduralGeneration/DungeonGenerator.cs:514-520 | a stopped loop stopped at the first unresolved segment, having built the halls of the segments before it |
| DungeonSpecs.HallsForShape | Assets/Scripts/ProceduralGeneration/DungeonGenerator.cs:514-708 | the halls number between \|connections\| and 2·\|connections\|, and each is hallTickness thick one way |
| DungeonSpecs.CollectForHallFacts | Assets/Scripts/ProceduralGeneration/DungeonGenerator.cs:717-727 | one hall's scan adds exactly the non-main rooms overlapping it that are not yet listed, without duplicates |
| DungeonSpecs.CollectAllFacts | Assets/Scripts/ProceduralGeneration/DungeonGenerator.cs:715-728 | the scan over all halls keeps what was listed and adds exactly the non-main rooms overlapping some hall |
| DungeonSpecs.SecondaryRooms | Assets/Scripts/ProceduralGeneration/DungeonGenerator.cs:711-729 | the secondary rooms are exactly the non-main rooms overlapping at least one hall, with no duplicates |
| Dungeon.CountQualifying | Assets/Scripts/ProceduralGeneration/DungeonGenerator.cs:198-201 | the tally counts at most one per drawn room |
| Dungeon.DungeonGenerator.constructor | Assets/Scripts/ProceduralGeneration/DungeonGenerator.cs:158-167 | Start: empty room lists, the zero map rectangle, counters at zero |
| Dungeon.DungeonGenerator.DrawnRect | Assets/Scripts/ProceduralGeneration/DungeonGenerator.cs:190-196 | a new room has the drawn size, centred on the ellipse point |
| Dungeon.DungeonGenerator.AddRoom | Assets/Scripts/ProceduralGeneration/DungeonGenerator.cs:184-204 | appends one fresh room, counted only if width ≥ minMainRoomWidth and height ≥ minMainRoomHeight |
| Dungeon.DungeonGenerator.AddRandomMainRoom | Assets/Scripts/ProceduralGeneration/DungeonGenerator.cs:206-222 | appends one fresh room and always counts it |
| Dungeon.DungeonGenerator.AddDrawnRooms | Assets/Scripts/ProceduralGeneration/DungeonGenerator.cs:226-229 | the first loop appends numberOfRooms fresh rooms, one per draw, and counts the qualifying ones |
| Dungeon.DungeonGenerator.AddForcedMainRooms | Assets/Scripts/ProceduralGeneration/DungeonGenerator.cs:231-243 | the second loop appends exactly max(0, min - tally) fresh, always-counted rooms |
| Dungeon.DungeonGenerator.AddRooms | Assets/Scripts/ProceduralGeneration/DungeonGenerator.cs:224-244 | afterwards the tally is at least minNumberOfMainRooms. allRooms keeps its old rooms and gains one fresh room per draw plus exactly the forced ones, so no room appears twice if none did before |
| Dungeon.DungeonGenerator.PushApart | Assets/Scripts/ProceduralGeneration/DungeonGenerator.cs:260-303 | the in-place writes to rooms j and i give exactly the pair step on the rectangles, and every room keeps its main-room flag |
| Dungeon.DungeonGenerator.MoveRoom | Assets/Scripts/ProceduralGeneration/DungeonGenerator.cs:282-283 | `r.position += toAdd` moves that room only, and every room keeps its main-room flag |
| Dungeon.DungeonGenerator.MoveApart | Assets/Scripts/ProceduralGeneration/DungeonGenerator.cs:299-302 | the AABB pushes move room j by the vector and room i by its opposite, nothing else, and keep every flag |
| Dungeon.DungeonGenerator.SeparationRound | Assets/Scripts/ProceduralGeneration/DungeonGenerator.cs:343-391 | the nested loops give exactly one round over all ordered pairs, with its overlap flag |
| Dungeon.DungeonGenerator.SeparationRow | Assets/Scripts/ProceduralGeneration/DungeonGenerator.cs:345-390 | the inner loop for row i advances the round by one row |
| Dungeon.DungeonGenerator.SilentIteration | Assets/Scripts/ProceduralGeneration/DungeonGenerator.cs:341-392 | one pass of the silent loop grows the multiplier, runs a round and counts it |
| Dungeon.DungeonGenerator.RemoveOverlappingLater | Assets/Scripts/ProceduralGeneration/DungeonGenerator.cs:398-406 | the RemoveAt/`j--` loop computes one cleanup row |
| Dungeon.DungeonGenerator.RemoveIfOverlapping | Assets/Scripts/ProceduralGeneration/DungeonGenerator.cs:400-404 | one pass of the inner loop removes room j exactly when it overlaps room i, so the scanned rooms after i are the survivors so far |
| Dungeon.DungeonGenerator.RemoveStillOverlapping | Assets/Scripts/ProceduralGeneration/DungeonGenerator.cs:395-407 | the cleanup pass leaves allRooms as the cleaned list |
| Dungeon.DungeonGenerator.SeparateRoomsSilently | Assets/Scripts/ProceduralGeneration/DungeonGenerator.cs:336-408 | the multiplier, the iteration counter and the rectangles follow the separation loop, then the cleanup runs |
| Dungeon.DungeonGenerator.SeparateRooms | Assets/Scripts/ProceduralGeneration/DungeonGenerator.cs:247-333 | below the limit: one rounded round, and the counter is bumped or jumps to the limit after a quiet round. At the limit: the cleanup, and the state advances |
| Dungeon.DungeonGenerator.UpdateMapRect | Assets/Scripts/ProceduralGeneration/DungeonGenerator.cs:411-430 | mapRect becomes the extension of the old box by the rectangle |
| Dungeon.DungeonGenerator.SelectMainRooms | Assets/Scripts/ProceduralGeneration/DungeonGenerator.cs:432-447 | allRooms becomes the remaining rooms; mainRooms gains the selected rooms; mapRect is extended by each selected room in turn |
| Dungeon.DungeonGenerator.ConsiderRoom | Assets/Scripts/ProceduralGeneration/DungeonGenerator.cs:437-445 | one pass of the loop moves room i to the main rooms and extends the box when it is large enough and not yet a main room, otherwise moves past it; either way the rooms still to scan select the rest of the selection |
| Dungeon.DungeonGenerator.PickMainRooms | Assets/Scripts/ProceduralGeneration/DungeonGenerator.cs:434-446 | the RemoveAt/`i--` loop computes the selection |
| Dungeon.DungeonGenerator.AddBackEdgesToSpanningTree | Assets/Scripts/ProceduralGeneration/DungeonGenerator.cs:467-484 | the tree keeps its edges as a prefix and gains the first `(int)(percentage × count)` shuffled candidates |
| Dungeon.EdgesToAdd | Assets/Scripts/ProceduralGeneration/DungeonGenerator.cs:469 | for a percentage in [0, 1], the number of edges to re-add lies between 0 and the triangulation's size |
| Dungeon.DungeonGenerator.FindEdgeRooms | Assets/Scripts/ProceduralGeneration/DungeonGenerator.cs:493-510 | the loop with `break` finds the same two rooms as the resolution function |
| Dungeon.DungeonGenerator.EdgesFor | Assets/Scripts/ProceduralGeneration/DungeonGenerator.cs:491-512 | one fresh RoomEdge per segment, in order, holding its resolved rooms |
| Dungeon.DungeonGenerator.ConnectRooms | Assets/Scripts/ProceduralGeneration/DungeonGenerator.cs:488-512 | roomsConnections gets one edge per spanning-tree segment, in order |
| Dungeon.DungeonGenerator.PlanHalls | Assets/Scripts/ProceduralGeneration/DungeonGenerator.cs:514-708 | the hall loop computes the planned halls, and stops at the first edge with a missing room |
| Dungeon.DungeonGenerator.MakeHallRooms | Assets/Scripts/ProceduralGeneration/DungeonGenerator.cs:641-644 | one fresh room per hall rectangle, with the box extended by each |
| Dungeon.DungeonGenerator.BuildHalls | Assets/Scripts/ProceduralGeneration/DungeonGenerator.cs:514-708 | halls and mapRect follow the planned halls |
| Dungeon.DungeonGenerator.CreateHalls | Assets/Scripts/ProceduralGeneration/DungeonGenerator.cs:486-709 | the edges, then the halls, with the box extended by each hall. Success exactly when no endpoint is missing |
| Dungeon.DungeonGenerator.CollectForHallScan | Assets/Scripts/ProceduralGeneration/DungeonGenerator.cs:717-727 | the inner loop for one hall computes that hall's scan and extends the box by each room it adds |
| Dungeon.DungeonGenerator.CollectSecundaryRooms | Assets/Scripts/ProceduralGeneration/DungeonGenerator.cs:713-728 | the nested loops compute the secondary-room scan and extend the box |
| Dungeon.DungeonGenerator.ReAddSecundaryRooms | Assets/Scripts/ProceduralGeneration/DungeonGenerator.cs:711-729 | secundaryRooms is the scan over all halls; mapRect is extended by each re-added room |
| Dungeon.DungeonGenerator.PlaceRooms | Assets/Scripts/ProceduralGeneration/DungeonGenerator.cs:1006-1008 | after adding, separating and selecting: the tally is met; the new main rooms are capped and qualifying; allRooms, and mainRooms if it started empty, are pairwise disjoint |
| Dungeon.DungeonGenerator.SeparateStage | Assets/Scripts/ProceduralGeneration/DungeonGenerator.cs:1007 | after silent separation no two rooms overlap |
| Dungeon.DungeonGenerator.SelectStage | Assets/Scripts/ProceduralGeneration/DungeonGenerator.cs:1008 | main-room selection on disjoint rooms keeps both lists disjoint and adds capped, qualifying rooms |
| Dungeon.DungeonGenerator.HallStages | Assets/Scripts/ProceduralGeneration/DungeonGenerator.cs:1012-1013 | the halls are built exactly when every endpoint resolves; the halls are those of the tree and the secondary rooms those the halls touch |
| Dungeon.DungeonGenerator.ConnectMainRooms | Assets/Scripts/ProceduralGeneration/DungeonGenerator.cs:1009-1013 | with the triangulation and tree given, the tree gains its re-added edges, then the hall stages run |
| Dungeon.DungeonGenerator.GenerateDungeon | Assets/Scripts/ProceduralGeneration/DungeonGenerator.cs:1004-1014 | the whole pipeline, with all of the above: main-room tally, cap and thresholds, no overlapping rooms, halls exactly when every endpoint resolves, and secondary rooms exactly those a hall touches |

## Left out

- The MonoBehaviour lifecycle and drawing:
  - `Start` is kept only as the constructor, so `Time.timeScale` and the generator set-up are not modelled;
  - `FixedUpdate` (the time-driven stage machine), `Update` and `DrawDungeon` are not modelled.
  - `SeparateRooms` models the stage machine's separation step without the timers.
- `DelaunayTriangulation` and `GetSpanningTree` call an external Voronoi/Kruskal library. The model takes the triangulation and the tree as input sequences of `LineSegment` objects, compared by reference.
- Randomness:
  - `Random.Range`, the list `Shuffle`, the angle's trigonometry and `UniformRandomGenerator` become parameters (`RoomDraw`, `mainDraws`, the shuffled lists as permutations, the uniform draw of `Next`);
  - `RandomPointInsideRect` is not modelled.
- Floating point: coordinates, multipliers and probabilities are exact reals. IEEE rounding, NaN and infinities are not modelled. `IsVec2Valid` is left out for that reason.
- `NormalRandomGenerator.calculatePdf` and the standard-deviation computation (exp, sqrt, pow) are not modelled:
  - the density is an arbitrary function parameter;
  - the standard deviation is a constructor parameter;
  - the table is computed from the density as the source computes it.
- The room sizes come from the draws. Which generator, normal or uniform, produced them is not modelled.
- Other `MathUtils` members are not modelled:
  - `Vec3ToVec2` and `Vec2ToVec3`, plain conversions;
  - `LineIntersectsCircle`, which needs a square root;
  - `GetNearestColliderPoint`, `IsOnScreen` and `Vector2Angle`, which need Unity colliders, cameras or angles.
- Other `ShapeUtils` members are not modelled:
  - `FindConvexHull`, whose loop need not terminate;
  - `FindCentroid2D`, which divides by the vertex count;
  - the vector normalisation in `RemoveOutOfDirectionVertices`. It is a function parameter, and the "same direction" test compares with the threshold as written.
- ShapeUtils.RemoveOutOfDirectionVertices: models the pruning of the caller's list on values. It returns the pruned list, so aliasing of the caller's list is not captured.
- `Room.GroundTiles` and `Room.WallTiles` hold game objects and no logic.
- `ProceduralGeneratorTest.cs` calls members the generator does not define. It is not part of this model.
- 32-bit integer overflow (in counts, `(int)` casts and `CeilToInt`) is not modelled. Integers are unbounded.
- Dungeon.DungeonGenerator.SeparateRoomsSilently:
  - it requires `maxSeparationIterations >= 6` whenever a round runs. Below 6, `maxSeparationIterations / 6` is zero and the float division by it gives an infinite multiplier, which reals cannot express;
  - it also requires that no room appears twice in `allRooms`. Rooms are only ever added freshly, so this holds in the pipeline, and it lets the model treat index-based writes as writes to distinct rooms. The same two requirements are on `SeparateRooms`, `SeparateStage`, `PlaceRooms` and `GenerateDungeon`.
- Dungeon.DungeonGenerator.AddRooms: takes exactly `numberOfRooms` draws (none when the setting is negative), and `mainDraws` supplies the forced rooms' draws by index.
- Dungeon.DungeonGenerator.CreateHalls: an edge whose endpoint lies in no main room makes the source throw a NullReferenceException at the midpoint computation. The model returns `ok == false` instead, keeping the halls built before that edge. The stages after it (`ReAddSecundaryRooms`) then run only when `ok` holds.
- Dungeon.DungeonGenerator.CreateHalls: the source's first loop (DungeonGenerator.cs:490-511) resolves every segment's endpoint rooms into the connection list (`ConnectRooms`); its second loop (DungeonGenerator.cs:513-708) builds each connection's halls and extends the box as it goes. The model splits that second loop in two: it plans the halls of every connection first (`PlanHalls`), then creates the hall rooms and extends the box in the same order (`MakeHallRooms`), which gives the same halls and the same box.
- Dungeon.DungeonGenerator.SelectMainRooms: the loop runs in a static method on the lists as values, and the method then assigns the fields. The same holds for `ReAddSecundaryRooms`, `CreateHalls` and the separation cleanup. The end state is the same, but the fields are written once rather than step by step.
- Dungeon.DungeonGenerator.GenerateDungeon: runs as stage methods (`PlaceRooms`, `ConnectMainRooms`), with the triangulation and tree assigned from its parameters.
- NormalRandom.NormalRandomGenerator.constructor: requires `min < max`. `Create` models the failing case, where the source's `Values.Min()` throws on the empty table.
- Rooms at (0, 0) and (5, 30), both 10 by 10, overlap in x, so the vertical test builds one straight vertical hall between them rather than an L (`Halls.OffsetColumnsGetStraightHall`).
- The `isMainRoom` flag is carried by `Room` but no modelled stage sets it, as in the source.
