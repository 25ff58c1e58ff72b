/**
 * DungeonGenerator: the generation pipeline. Rooms are scattered in an
 * ellipse, pushed apart until they stop overlapping (or an iteration limit
 * is hit), the ones still overlapping are dropped, the large ones become main
 * rooms, a spanning tree of their triangulation (plus some extra edges)
 * becomes halls, and the other rooms crossed by a hall are kept as secondary
 * rooms.
 *
 * Every random draw is a parameter: the room sizes and ellipse samples are
 * streams of RoomDraw values, the triangulation and its spanning tree (from
 * the Delaunay library) are given, and each shuffle is a given permutation.
 */
module Dungeon {
  import opened Geometry
  import opened Rooms
  import opened Seqs
  import opened DungeonSpecs
  import Separation
  import MapBounds
  import Halls
  import ShapeUtils

  /** The inspector settings the modelled stages read. */
  datatype Settings = Settings(
    roomGenerationHorizontalSpace: int,
    roomGenerationVerticalSpace: int,
    minNumberOfMainRooms: int,
    maxNumberOfMainRooms: int,
    minMainRoomWidth: real,
    minMainRoomHeight: real,
    useAABBSeparation: bool,
    roomSeparationStepMultiplier: real,
    numberOfRooms: int,
    maxSeparationIterations: int,
    percentageOfEdgesToReaddToSpanningTree: real,
    hallTickness: int)

  /**
   * The random values one new room consumes: its width and height, then the
   * two uniform draws and the angle's cosine and sine that
   * GetRandomPointInElipse uses for its centre.
   */
  datatype RoomDraw = RoomDraw(width: real, height: real, u1: real, u2: real, cosT: real, sinT: real)

  /** How many of the first n draws are large enough for a main room. */
  function CountQualifying(draws: seq<RoomDraw>, minWidth: real, minHeight: real): (c: nat)
    ensures c <= |draws|
  {
    if draws == [] then 0
    else
      var d := draws[|draws| - 1];
      CountQualifying(draws[..|draws| - 1], minWidth, minHeight) +
      (if d.width >= minWidth && d.height >= minHeight then 1 else 0)
  }

  /** amountOfEdgesToAdd: the percentage of the triangulation's size, truncated toward zero. */
  function EdgesToAdd(percentage: real, triangulationSize: nat): (n: int)
    ensures 0.0 <= percentage <= 1.0 ==> 0 <= n <= triangulationSize
  {
    var v := percentage * (triangulationSize as real);
    if 0.0 <= percentage <= 1.0 then
      assert 0.0 <= v <= triangulationSize as real by {
        MulUnitBounds(triangulationSize as real, percentage);
        assert v == (triangulationSize as real) * percentage;
      }
      var n := Trunc(v);
      assert n as real <= triangulationSize as real;
      n
    else
      Trunc(v)
  }

  class DungeonGenerator {
    const settings: Settings
    var roomSeparationStepMultiplier: real
    var allRooms: seq<Room>
    var mainRooms: seq<Room>
    var secundaryRooms: seq<Room>
    var halls: seq<Room>
    var delaunayTriangulation: seq<LineSegment>
    var spanningTree: seq<LineSegment>
    var roomsConnections: seq<RoomEdge>
    var mapRect: Rect
    var currentNumberOfMainRooms: int
    var currentSeparationIteraction: int
    var currentState: int

    /**
     * Start: empty room lists, the zero map rectangle, every counter at zero.
     * (The lists the source leaves null until their stage runs start empty
     * here.)
     */
    constructor (settings: Settings)
      ensures this.settings == settings
      ensures roomSeparationStepMultiplier == settings.roomSeparationStepMultiplier
      ensures allRooms == [] && mainRooms == [] && mapRect == ZeroRect
      ensures currentSeparationIteraction == 0 && currentNumberOfMainRooms == 0 && currentState == 0
    {
      this.settings := settings;
      roomSeparationStepMultiplier := settings.roomSeparationStepMultiplier;
      allRooms := [];
      mainRooms := [];
      secundaryRooms := [];
      halls := [];
      delaunayTriangulation := [];
      spanningTree := [];
      roomsConnections := [];
      mapRect := Rect(0.0, 0.0, 0.0, 0.0);
      currentSeparationIteraction := 0;
      currentNumberOfMainRooms := 0;
      currentState := 0;
    }

    /** The centre GetRandomPointInElipse gives a room drawn with d. */
    function EllipsePoint(d: RoomDraw): Vec2 {
      ShapeUtils.GetRandomPointInEllipse(settings.roomGenerationHorizontalSpace, settings.roomGenerationVerticalSpace,
                                         d.u1, d.u2, d.cosT, d.sinT)
    }

    predicate LargeEnough(width: real, height: real) {
      width >= settings.minMainRoomWidth && height >= settings.minMainRoomHeight
    }

    /** The push the silent separation uses. */
    function SilentPush(): Separation.Push {
      if settings.useAABBSeparation then Separation.AABBExact else Separation.Avoidance
    }

    /** The push the step-by-step separation uses. */
    function StepPush(): Separation.Push {
      if settings.useAABBSeparation then Separation.AABBRounded else Separation.Avoidance
    }

    // -------------------------------------------------------------------
    // Adding rooms
    // -------------------------------------------------------------------

    /** The rectangle of a room drawn with d: the drawn size, centred on the drawn ellipse point. */
    function DrawnRect(d: RoomDraw): (r: Rect)
      ensures r.Size() == Vec2(d.width, d.height) && r.Center() == EllipsePoint(d)
    {
      Rect(0.0, 0.0, d.width, d.height).WithCenter(EllipsePoint(d))
    }

    /** AddRoom: a new room of the drawn size centred on the drawn ellipse point, counted if large enough. */
    method AddRoom(d: RoomDraw)
      modifies this`allRooms, this`currentNumberOfMainRooms
      ensures |allRooms| == |old(allRooms)| + 1
      ensures var r := allRooms[|old(allRooms)|]; allRooms == old(allRooms) + [r] && fresh(r) && r.rect == DrawnRect(d)
      ensures currentNumberOfMainRooms == old(currentNumberOfMainRooms) + if LargeEnough(d.width, d.height) then 1 else 0
    {
      var r := new Room(0.0, 0.0, d.width, d.height);
      r.SetCenter(EllipsePoint(d));
      if r.Width() >= settings.minMainRoomWidth && r.Height() >= settings.minMainRoomHeight {
        currentNumberOfMainRooms := currentNumberOfMainRooms + 1;
      }
      allRooms := allRooms + [r];
    }

    /** AddRandomMainRoom: like AddRoom, but the room is always counted as a main room. */
    method AddRandomMainRoom(d: RoomDraw)
      modifies this`allRooms, this`currentNumberOfMainRooms
      ensures |allRooms| == |old(allRooms)| + 1
      ensures var r := allRooms[|old(allRooms)|]; allRooms == old(allRooms) + [r] && fresh(r) && r.rect == DrawnRect(d)
      ensures currentNumberOfMainRooms == old(currentNumberOfMainRooms) + 1
    {
      var r := new Room(0.0, 0.0, d.width, d.height);
      r.SetCenter(EllipsePoint(d));
      currentNumberOfMainRooms := currentNumberOfMainRooms + 1;
      allRooms := allRooms + [r];
    }

    /** The number of rooms the first loop of AddRooms adds. */
    function RandomRoomCount(): nat {
      if settings.numberOfRooms > 0 then settings.numberOfRooms else 0
    }

    /** How many rooms the second loop of AddRooms forces, after `counted` were counted. */
    function ForcedCount(counted: int): nat {
      if counted < settings.minNumberOfMainRooms then settings.minNumberOfMainRooms - counted else 0
    }

    /**
     * The first loop of AddRooms: numberOfRooms calls of AddRoom, one per
     * draw, each counted if large enough.
     */
    method AddDrawnRooms(draws: seq<RoomDraw>)
      requires |draws| == RandomRoomCount()
      modifies this`allRooms, this`currentNumberOfMainRooms
      ensures currentNumberOfMainRooms == old(currentNumberOfMainRooms) +
                CountQualifying(draws, settings.minMainRoomWidth, settings.minMainRoomHeight)
      ensures |allRooms| == |old(allRooms)| + |draws| && allRooms[..|old(allRooms)|] == old(allRooms)
      ensures forall k :: 0 <= k < |draws| ==> allRooms[|old(allRooms)| + k].rect == DrawnRect(draws[k])
      ensures forall k :: |old(allRooms)| <= k < |allRooms| ==> fresh(allRooms[k])
      ensures Distinct(old(allRooms)) ==> Distinct(allRooms)
    {
      ghost var rooms0 := allRooms;
      ghost var added: seq<Room> := [];
      var i := 0;
      while i < settings.numberOfRooms
        invariant 0 <= i <= |draws| && |added| == i && allRooms == rooms0 + added
        invariant currentNumberOfMainRooms == old(currentNumberOfMainRooms) +
                    CountQualifying(draws[..i], settings.minMainRoomWidth, settings.minMainRoomHeight)
        invariant forall k :: 0 <= k < i ==> added[k].rect == DrawnRect(draws[k]) && fresh(added[k])
        invariant Distinct(rooms0) ==> Distinct(allRooms)
      {
        ghost var prev := allRooms;
        assert draws[..i + 1][..i] == draws[..i];
        AddRoom(draws[i]);
        ghost var r := allRooms[|prev|];
        if Distinct(rooms0) {
          DistinctAppend(prev, r);
        }
        added := added + [r];
        i := i + 1;
      }
      assert draws[..i] == draws;
    }

    /**
     * The second loop of AddRooms: AddRandomMainRoom, one per draw, while
     * fewer than minNumberOfMainRooms rooms are counted.
     */
    method AddForcedMainRooms(mainDraws: nat -> RoomDraw)
      modifies this`allRooms, this`currentNumberOfMainRooms
      ensures currentNumberOfMainRooms == old(currentNumberOfMainRooms) + ForcedCount(old(currentNumberOfMainRooms))
      ensures |allRooms| == |old(allRooms)| + ForcedCount(old(currentNumberOfMainRooms))
      ensures allRooms[..|old(allRooms)|] == old(allRooms)
      ensures forall k :: 0 <= k < ForcedCount(old(currentNumberOfMainRooms)) ==>
                allRooms[|old(allRooms)| + k].rect == DrawnRect(mainDraws(k))
      ensures forall k :: |old(allRooms)| <= k < |allRooms| ==> fresh(allRooms[k])
      ensures Distinct(old(allRooms)) ==> Distinct(allRooms)
    {
      ghost var rooms0 := allRooms;
      ghost var added: seq<Room> := [];
      var k := 0;
      while currentNumberOfMainRooms < settings.minNumberOfMainRooms
        invariant 0 <= k <= ForcedCount(old(currentNumberOfMainRooms)) && |added| == k && allRooms == rooms0 + added
        invariant currentNumberOfMainRooms == old(currentNumberOfMainRooms) + k
        invariant forall m :: 0 <= m < k ==> added[m].rect == DrawnRect(mainDraws(m)) && fresh(added[m])
        invariant Distinct(rooms0) ==> Distinct(allRooms)
        decreases settings.minNumberOfMainRooms - currentNumberOfMainRooms
      {
        ghost var prev := allRooms;
        AddRandomMainRoom(mainDraws(k));
        ghost var r := allRooms[|prev|];
        if Distinct(rooms0) {
          DistinctAppend(prev, r);
        }
        added := added + [r];
        k := k + 1;
      }
    }

    /**
     * AddRooms: numberOfRooms rooms from `draws`, then, while fewer than
     * minNumberOfMainRooms were counted, forced main rooms from `mainDraws`.
     * Afterwards at least minNumberOfMainRooms rooms are counted; the new
     * rooms are new objects, in draw order, with the drawn rectangles.
     */
    method AddRooms(draws: seq<RoomDraw>, mainDraws: nat -> RoomDraw)
      requires |draws| == RandomRoomCount()
      modifies this`allRooms, this`currentNumberOfMainRooms
      ensures var counted := old(currentNumberOfMainRooms) +
                CountQualifying(draws, settings.minMainRoomWidth, settings.minMainRoomHeight);
              currentNumberOfMainRooms == counted + ForcedCount(counted) &&
              |allRooms| == |old(allRooms)| + RandomRoomCount() + ForcedCount(counted) &&
              forall k :: 0 <= k < ForcedCount(counted) ==>
                allRooms[|old(allRooms)| + RandomRoomCount() + k].rect == DrawnRect(mainDraws(k))
      ensures currentNumberOfMainRooms >= settings.minNumberOfMainRooms
      ensures allRooms[..|old(allRooms)|] == old(allRooms)
      ensures forall k :: 0 <= k < RandomRoomCount() ==> allRooms[|old(allRooms)| + k].rect == DrawnRect(draws[k])
      ensures forall k :: |old(allRooms)| <= k < |allRooms| ==> fresh(allRooms[k])
      ensures Distinct(old(allRooms)) ==> Distinct(allRooms)
    {
      AddDrawnRooms(draws);
      if currentNumberOfMainRooms < settings.minNumberOfMainRooms {
        AddForcedMainRooms(mainDraws);
      }
    }

    // -------------------------------------------------------------------
    // Separation
    // -------------------------------------------------------------------

    /** One overlapping pair (i, j) pushed apart in place, as one step of a round. */
    method PushApart(i: nat, j: nat, mult: real, push: Separation.Push)
      requires i < |allRooms| && j < |allRooms| && i != j && Distinct(allRooms)
      modifies allRooms[i], allRooms[j]
      ensures Rects(allRooms) == Separation.PairStep(old(Rects(allRooms)), i, j, mult, push)
      ensures Flags(allRooms) == old(Flags(allRooms))
    {
      var r := allRooms[j];
      var r2 := allRooms[i];
      ghost var before := Rects(allRooms);
      assert before[i] == r2.rect && before[j] == r.rect;
      match push
      case Avoidance =>
        var toAdd := Separation.PushVector(r2.rect, r.rect, mult);
        MoveRoom(j, toAdd);
        assert Separation.PairStep(before, i, j, mult, push) == before[j := before[j].Moved(toAdd)];
      case AABBExact =>
        var half := Separation.HalfPenetration(r2.rect, r.rect);
        MoveApart(i, j, half);
        assert Separation.PairStep(before, i, j, mult, push) ==
               before[j := before[j].Moved(half)][i := before[i].Moved(Vec2(-half.x, -half.y))];
      case AABBRounded =>
        var half := Separation.HalfPenetration(r2.rect, r.rect);
        var toAdd := Vec2(Ceil(half.x) as real, Ceil(half.y) as real);
        MoveApart(i, j, toAdd);
        assert Separation.PairStep(before, i, j, mult, push) ==
               before[j := before[j].Moved(toAdd)][i := before[i].Moved(Vec2(-toAdd.x, -toAdd.y))];
    }

    /** Translates room j by d and room i by -d, as the AABB pushes do. */
    method MoveApart(i: nat, j: nat, d: Vec2)
      requires i < |allRooms| && j < |allRooms| && i != j && Distinct(allRooms)
      modifies allRooms[i], allRooms[j]
      ensures Rects(allRooms) ==
                old(Rects(allRooms))[j := old(allRooms[j].rect).Moved(d)][i := old(allRooms[i].rect).Moved(Vec2(-d.x, -d.y))]
      ensures Flags(allRooms) == old(Flags(allRooms))
    {
      MoveRoom(j, d);
      MoveRoom(i, Vec2(-d.x, -d.y));
    }

    /** Translates room k by d; every other room keeps its rectangle, and every room its flag. */
    method MoveRoom(k: nat, d: Vec2)
      requires k < |allRooms| && Distinct(allRooms)
      modifies allRooms[k]
      ensures Rects(allRooms) == old(Rects(allRooms))[k := old(allRooms[k].rect).Moved(d)]
      ensures Flags(allRooms) == old(Flags(allRooms))
    {
      var r := allRooms[k];
      r.SetPosition(r.Position().Plus(d));
    }

    /**
     * One round of the separation loop: for every ordered pair (i, j) of
     * distinct indices, row by row, an overlapping pair is pushed apart.
     * Returns whether any pair overlapped.
     */
    method SeparationRound(mult: real, push: Separation.Push) returns (overlaps: bool)
      requires Distinct(allRooms)
      modifies allRooms
      ensures (Rects(allRooms), overlaps) == old(Separation.RoundFrom(Rects(allRooms), mult, push, 0, 0))
    {
      ghost var target := Separation.RoundFrom(Rects(allRooms), mult, push, 0, 0);
      overlaps := false;
      var i := 0;
      while i < |allRooms|
        invariant 0 <= i <= |allRooms|
        invariant var rf := Separation.RoundFrom(Rects(allRooms), mult, push, i, 0);
                  rf.0 == target.0 && (overlaps || rf.1) == target.1
      {
        overlaps := SeparationRow(i, mult, push, overlaps);
        i := i + 1;
      }
    }

    /**
     * The inner loop of a round, row i: every j, an overlapping pair (i, j)
     * pushed apart and the flag set. The rest of the round from row i + 1 on
     * ends where the rest from row i on would have.
     */
    method SeparationRow(i: nat, mult: real, push: Separation.Push, overlapsIn: bool) returns (overlaps: bool)
      requires i < |allRooms| && Distinct(allRooms)
      modifies allRooms
      ensures var before := old(Separation.RoundFrom(Rects(allRooms), mult, push, i, 0));
              var after := Separation.RoundFrom(Rects(allRooms), mult, push, i + 1, 0);
              after.0 == before.0 && (overlaps || after.1) == (overlapsIn || before.1)
    {
      ghost var target := Separation.RoundFrom(Rects(allRooms), mult, push, i, 0);
      overlaps := overlapsIn;
      var j := 0;
      while j < |allRooms|
        invariant 0 <= j <= |allRooms|
        invariant var rf := Separation.RoundFrom(Rects(allRooms), mult, push, i, j);
                  rf.0 == target.0 && (overlaps || rf.1) == (overlapsIn || target.1)
      {
        if i != j && allRooms[i].Overlaps(allRooms[j]) {
          overlaps := true;
          PushApart(i, j, mult, push);
        }
        j := j + 1;
      }
    }

    /**
     * The inner cleanup loop for index i, on the list as a value: every later
     * room still overlapping room i is removed (RemoveAt(j), then j-- undoes
     * the loop's j++).
     */
    static method RemoveOverlappingLater(rooms: seq<Room>, i: nat) returns (rs: seq<Room>)
      requires i < |rooms|
      ensures rs == CleanStep(rooms, i)
    {
      rs := rooms;
      ghost var k := i + 1;
      ghost var kept: seq<Room> := [];
      var j := i + 1;
      while j < |rs|
        invariant i + 1 <= k <= |rooms|
        invariant kept == Survivors(rooms[i + 1..k], rooms[i])
        invariant rs == rooms[..i + 1] + kept + rooms[k..]
        invariant j == i + 1 + |kept|
        decreases |rs| - j
      {
        rs, j, k, kept := RemoveIfOverlapping(rooms, i, k, kept, rs, j);
      }
      assert rooms[i + 1..k] == rooms[i + 1..];
    }

    /** One pass of the inner cleanup loop: room j, which is rooms[k], is removed if it overlaps room i, else kept. */
    static method RemoveIfOverlapping(rooms: seq<Room>, i: nat, ghost k: nat, ghost kept: seq<Room>, rs: seq<Room>, j: nat)
      returns (rs': seq<Room>, j': nat, ghost k': nat, ghost kept': seq<Room>)
      requires i < k < |rooms| && kept == Survivors(rooms[i + 1..k], rooms[i])
      requires rs == rooms[..i + 1] + kept + rooms[k..] && j == i + 1 + |kept|
      ensures k' == k + 1 && kept' == Survivors(rooms[i + 1..k'], rooms[i])
      ensures rs' == rooms[..i + 1] + kept' + rooms[k'..] && j' == i + 1 + |kept'|
      ensures |rs'| - j' < |rs| - j
    {
      k' := k + 1;
      CleanLoopStep(rooms, i, k, kept, rs, j);
      SurvivorsExtend(rooms, i, k);
      if rs[i].Overlaps(rs[j]) {
        rs', j', kept' := rs[..j] + rs[j + 1..], j, kept;
      } else {
        rs', j', kept' := rs, j + 1, kept + [rooms[k]];
      }
    }

    /**
     * The cleanup after separation: for each room in turn, every later room
     * still overlapping it is removed. The list is cleaned as a local value
     * and stored at the end.
     */
    method RemoveStillOverlapping()
      modifies this`allRooms
      ensures allRooms == Cleaned(old(allRooms))
    {
      var rooms := allRooms;
      ghost var target := Cleaned(rooms);
      var i := 0;
      while i < |rooms|
        invariant 0 <= i <= |rooms|
        invariant CleanFrom(rooms, i) == target
        modifies {}
      {
        CleanStepFacts(rooms, i);
        assert CleanFrom(rooms, i) == CleanFrom(CleanStep(rooms, i), i + 1);
        rooms := RemoveOverlappingLater(rooms, i);
        i := i + 1;
      }
      allRooms := rooms;
    }

    /**
     * SeparateRoomsSilently: while the counter is below
     * maxSeparationIterations and the last round overlapped, grow the
     * multiplier, run a round and count it; then the cleanup. The rooms end
     * where SeparateFrom puts their rectangles, and the list keeps the rooms
     * Cleaned keeps.
     */
    method SeparateRoomsSilently()
      requires Distinct(allRooms)
      requires currentSeparationIteraction >= settings.maxSeparationIterations || settings.maxSeparationIterations >= 6
      modifies this`roomSeparationStepMultiplier, this`currentSeparationIteraction, this`allRooms, allRooms
      ensures var st := Separation.SeparateFrom(
                Separation.SeparationState(old(Rects(allRooms)), old(roomSeparationStepMultiplier),
                                           old(currentSeparationIteraction), true),
                settings.maxSeparationIterations, SilentPush());
              roomSeparationStepMultiplier == st.mult && currentSeparationIteraction == st.iter &&
              Rects(old(allRooms)) == st.rects
      ensures allRooms == Cleaned(old(allRooms))
    {
      var maxIter := settings.maxSeparationIterations;
      ghost var target := Separation.SeparateFrom(
        Separation.SeparationState(Rects(allRooms), roomSeparationStepMultiplier, currentSeparationIteraction, true),
        maxIter, SilentPush());
      var overlaps := true;
      while currentSeparationIteraction < maxIter && overlaps
        invariant allRooms == old(allRooms)
        invariant currentSeparationIteraction >= maxIter || !overlaps || maxIter >= 6
        invariant Separation.SeparateFrom(
                    Separation.SeparationState(Rects(allRooms), roomSeparationStepMultiplier, currentSeparationIteraction, overlaps),
                    maxIter, SilentPush()) == target
        decreases maxIter - currentSeparationIteraction
      {
        overlaps := SilentIteration();
      }
      RemoveStillOverlapping();
    }

    /** One pass of SeparateRoomsSilently's loop: grow the multiplier, run a round, count it. */
    method SilentIteration() returns (overlaps: bool)
      requires Distinct(allRooms) && settings.maxSeparationIterations >= 6
      modifies this`roomSeparationStepMultiplier, this`currentSeparationIteraction, allRooms
      ensures var mult := Separation.NextMultiplier(old(roomSeparationStepMultiplier), settings.maxSeparationIterations);
              var round := old(Separation.RoundFrom(Rects(allRooms), mult, SilentPush(), 0, 0));
              roomSeparationStepMultiplier == mult && Rects(allRooms) == round.0 && overlaps == round.1 &&
              currentSeparationIteraction == old(currentSeparationIteraction) + 1
    {
      var maxIter := settings.maxSeparationIterations;
      roomSeparationStepMultiplier := roomSeparationStepMultiplier + roomSeparationStepMultiplier / (TruncDiv(maxIter, 6) as real);
      overlaps := SeparationRound(roomSeparationStepMultiplier, SilentPush());
      currentSeparationIteraction := currentSeparationIteraction + 1;
    }

    /**
     * SeparateRooms, the step-by-step form: below the limit, one round (the
     * AABB push rounded up), after which the counter goes up by one if the
     * round overlapped and jumps to the limit otherwise; at the limit, the
     * cleanup and the next state.
     */
    method SeparateRooms()
      requires Distinct(allRooms)
      requires currentSeparationIteraction >= settings.maxSeparationIterations || settings.maxSeparationIterations >= 6
      modifies this`roomSeparationStepMultiplier, this`currentSeparationIteraction, this`allRooms, this`currentState, allRooms
      ensures old(currentSeparationIteraction) < settings.maxSeparationIterations ==>
                var mult := Separation.NextMultiplier(old(roomSeparationStepMultiplier), settings.maxSeparationIterations);
                var round := old(Separation.RoundFrom(Rects(allRooms), mult, StepPush(), 0, 0));
                roomSeparationStepMultiplier == mult && allRooms == old(allRooms) && Rects(allRooms) == round.0 &&
                currentSeparationIteraction == (if round.1 then old(currentSeparationIteraction) + 1
                                                else settings.maxSeparationIterations) &&
                currentState == old(currentState)
      ensures old(currentSeparationIteraction) >= settings.maxSeparationIterations ==>
                allRooms == Cleaned(old(allRooms)) && currentState == old(currentState) + 1 &&
                roomSeparationStepMultiplier == old(roomSeparationStepMultiplier) &&
                currentSeparationIteraction == old(currentSeparationIteraction) &&
                Rects(old(allRooms)) == old(Rects(allRooms))
    {
      var maxIter := settings.maxSeparationIterations;
      if currentSeparationIteraction < maxIter {
        roomSeparationStepMultiplier := roomSeparationStepMultiplier + roomSeparationStepMultiplier / (TruncDiv(maxIter, 6) as real);
        var overlaps := SeparationRound(roomSeparationStepMultiplier, StepPush());
        if overlaps {
          currentSeparationIteraction := currentSeparationIteraction + 1;
        } else {
          currentSeparationIteraction := maxIter;
        }
      } else {
        RemoveStillOverlapping();
        currentState := currentState + 1;
      }
    }

    // -------------------------------------------------------------------
    // Main rooms and the map rectangle
    // -------------------------------------------------------------------

    /** UpdateMapRect: each axis widens the minimum side, or else the maximum side. */
    method UpdateMapRect(r: Rect)
      modifies this`mapRect
      ensures mapRect == MapBounds.Extend(old(mapRect), r)
    {
      if r.XMin() < mapRect.XMin() {
        mapRect := mapRect.WithXMin(r.XMin());
      } else if r.XMax() > mapRect.XMax() {
        mapRect := mapRect.WithXMax(r.XMax());
      }
      if r.YMin() < mapRect.YMin() {
        mapRect := mapRect.WithYMin(r.YMin());
      } else if r.YMax() > mapRect.YMax() {
        mapRect := mapRect.WithYMax(r.YMax());
      }
    }

    /**
     * SelectMainRooms: the rooms Select takes move from allRooms to
     * mainRooms, in order, and the map rectangle is widened by each of them.
     * RemoveAt(i) followed by i-- and the loop's ++i leaves i in place.
     */
    method SelectMainRooms()
      modifies this`allRooms, this`mainRooms, this`mapRect
      ensures var res := old(Select(allRooms, mainRooms, settings.maxNumberOfMainRooms, 0,
                                    settings.minMainRoomWidth, settings.minMainRoomHeight));
              allRooms == res.0 && mainRooms == old(mainRooms) + res.1 &&
              mapRect == MapBounds.ExtendAll(old(mapRect), Rects(res.1))
    {
      allRooms, mainRooms, mapRect := PickMainRooms(allRooms, mainRooms, mapRect, settings.maxNumberOfMainRooms,
                                                    settings.minMainRoomWidth, settings.minMainRoomHeight);
    }

    /** The loop of SelectMainRooms on the lists and the map rectangle as values. */
    static method PickMainRooms(rooms0: seq<Room>, main0: seq<Room>, bounds0: Rect, cap: int, minW: real, minH: real)
      returns (rooms: seq<Room>, main: seq<Room>, bounds: Rect)
      ensures var res := Select(rooms0, main0, cap, 0, minW, minH);
              rooms == res.0 && main == main0 + res.1 && bounds == MapBounds.ExtendAll(bounds0, Rects(res.1))
    {
      rooms, main, bounds := rooms0, main0, bounds0;
      ghost var target := Select(rooms, main, cap, 0, minW, minH);
      ghost var picked: seq<Room> := [];
      var selectedMainRooms := 0;
      var i := 0;
      while i < |rooms| && selectedMainRooms < cap
        invariant 0 <= i <= |rooms|
        invariant main == main0 + picked && |picked| == selectedMainRooms
        invariant var rest := Select(rooms[i..], main, cap, selectedMainRooms, minW, minH);
                  rooms[..i] + rest.0 == target.0 && picked + rest.1 == target.1
        invariant bounds == MapBounds.ExtendAll(bounds0, Rects(picked))
        decreases |rooms| - i
      {
        rooms, i, main, selectedMainRooms, bounds, picked :=
          ConsiderRoom(rooms, i, main, selectedMainRooms, bounds, cap, minW, minH, main0, picked, bounds0, target);
      }
      assert Select(rooms[i..], main, cap, selectedMainRooms, minW, minH) == (rooms[i..], []);
      assert rooms[..i] + rooms[i..] == rooms;
      assert picked == target.1;
    }

    /**
     * One pass of SelectMainRooms' loop: room i is moved from the list to
     * the main rooms, and the box extended by it, when it is large enough
     * and not already a main room; otherwise the scan moves past it.
     */
    static method ConsiderRoom(rooms: seq<Room>, i: nat, main: seq<Room>, selected: int, bounds: Rect,
                               cap: int, minW: real, minH: real,
                               ghost main0: seq<Room>, ghost picked: seq<Room>, ghost bounds0: Rect,
                               ghost target: (seq<Room>, seq<Room>))
      returns (rooms': seq<Room>, i': nat, main': seq<Room>, selected': int, bounds': Rect, ghost picked': seq<Room>)
      requires i < |rooms| && selected < cap
      requires main == main0 + picked && |picked| == selected
      requires var rest := Select(rooms[i..], main, cap, selected, minW, minH);
               rooms[..i] + rest.0 == target.0 && picked + rest.1 == target.1
      requires bounds == MapBounds.ExtendAll(bounds0, Rects(picked))
      ensures i' <= |rooms'| && |rooms'| - i' < |rooms| - i
      ensures main' == main0 + picked' && |picked'| == selected'
      ensures var rest := Select(rooms'[i'..], main', cap, selected', minW, minH);
              rooms'[..i'] + rest.0 == target.0 && picked' + rest.1 == target.1
      ensures bounds' == MapBounds.ExtendAll(bounds0, Rects(picked'))
    {
      var r := rooms[i];
      if r.Width() >= minW && r.Height() >= minH && r !in main {
        SelectTakes(rooms, i, main, cap, selected, minW, minH, picked, target.0, target.1);
        ExtendPicked(bounds0, picked, r);
        AppendAssoc(main0, picked, [r]);
        rooms', i', main', selected' := rooms[..i] + rooms[i + 1..], i, main + [r], selected + 1;
        bounds', picked' := MapBounds.Extend(bounds, r.rect), picked + [r];
      } else {
        SelectSkips(rooms, i, main, cap, selected, minW, minH, picked, target.0, target.1);
        rooms', i', main', selected', bounds', picked' := rooms, i + 1, main, selected, bounds, picked;
      }
    }

    // -------------------------------------------------------------------
    // Spanning tree, halls and secondary rooms
    // -------------------------------------------------------------------

    /**
     * AddBackEdgesToSpanningTree, with the two shuffled copies as
     * parameters: scanning the shuffled triangulation, segments not in the
     * shuffled tree are collected until EdgesToAdd of them are found, and
     * appended to the tree.
     */
    method AddBackEdgesToSpanningTree(shuffledTree: seq<LineSegment>, shuffledTri: seq<LineSegment>)
      requires multiset(shuffledTree) == multiset(spanningTree)
      requires multiset(shuffledTri) == multiset(delaunayTriangulation)
      modifies this`spanningTree
      ensures spanningTree == old(spanningTree) + Take(Outside(shuffledTri, shuffledTree),
                                                         EdgesToAdd(settings.percentageOfEdgesToReaddToSpanningTree, |delaunayTriangulation|))
    {
      var amountOfEdgesToAdd := EdgesToAdd(settings.percentageOfEdgesToReaddToSpanningTree, |delaunayTriangulation|);
      var tempTree := shuffledTree;
      var tempDelaunay := shuffledTri;
      var edgesToAdd: seq<LineSegment> := [];
      var i := 0;
      while i < |tempDelaunay| && |edgesToAdd| < amountOfEdgesToAdd
        invariant 0 <= i <= |tempDelaunay|
        invariant edgesToAdd == Outside(tempDelaunay[..i], tempTree)
        invariant |edgesToAdd| <= if amountOfEdgesToAdd > 0 then amountOfEdgesToAdd else 0
      {
        ghost var next := tempDelaunay[..i + 1];
        assert next[..|next| - 1] == tempDelaunay[..i] && next[|next| - 1] == tempDelaunay[i];
        if tempDelaunay[i] !in tempTree {
          edgesToAdd := edgesToAdd + [tempDelaunay[i]];
        }
        i := i + 1;
      }
      OutsidePrefix(tempDelaunay, tempTree, i);
      ghost var all := Outside(tempDelaunay, tempTree);
      if i == |tempDelaunay| {
        assert tempDelaunay[..i] == tempDelaunay;
      }
      assert |Take(all, amountOfEdgesToAdd)| == |edgesToAdd|;
      assert Take(all, amountOfEdgesToAdd) == all[..|edgesToAdd|] == edgesToAdd;
      spanningTree := spanningTree + edgesToAdd;
    }

    /**
     * The inner loop of CreateHalls' first loop: the main rooms holding the
     * end points of l, scanned in order until both are found.
     */
    method FindEdgeRooms(rooms: seq<Room>, l: LineSegment) returns (r0: Room?, r1: Room?)
      ensures (r0, r1) == Resolve(rooms, l)
    {
      r0, r1 := null, null;
      var m := 0;
      while m < |rooms|
        invariant 0 <= m <= |rooms| && (r0 == null || r1 == null)
        invariant ResolveFrom(rooms, l.p0, l.p1, m, r0, r1) == Resolve(rooms, l)
      {
        var r := rooms[m];
        ghost var before := (r0, r1);
        if r.Contains(l.p0) {
          r0 := r;
        } else if r.Contains(l.p1) {
          r1 := r;
        }
        if r0 != null && r1 != null {
          assert ResolveFrom(rooms, l.p0, l.p1, m, before.0, before.1) == (r0, r1);
          return;
        }
        m := m + 1;
      }
    }

    /** One new RoomEdge per segment, with the rooms FindEdgeRooms finds. */
    method EdgesFor(rooms: seq<Room>, tree: seq<LineSegment>) returns (connections: seq<RoomEdge>)
      ensures |connections| == |tree|
      ensures forall k :: 0 <= k < |tree| ==>
                fresh(connections[k]) && connections[k].lineSegment == tree[k] &&
                (connections[k].p0Rect, connections[k].p1Rect) == Resolve(rooms, tree[k])
    {
      connections := [];
      var k := 0;
      while k < |tree|
        invariant 0 <= k <= |tree| && |connections| == k
        invariant forall m :: 0 <= m < k ==>
                    fresh(connections[m]) && connections[m].lineSegment == tree[m] &&
                    (connections[m].p0Rect, connections[m].p1Rect) == Resolve(rooms, tree[m])
      {
        var r0, r1 := FindEdgeRooms(rooms, tree[k]);
        var edge := new RoomEdge(tree[k], r0, r1);
        connections := connections + [edge];
        k := k + 1;
      }
    }

    /**
     * The second loop of CreateHalls, as hall rectangles: for each edge in
     * turn, the halls HallsBetween gives for its rooms' rectangles. An edge
     * with a missing room is where the source throws NullReferenceException:
     * the loop stops there with ok == false and the halls planned so far.
     */
    static method PlanHalls(rooms: seq<Room>, tree: seq<LineSegment>, connections: seq<RoomEdge>, t: int)
      returns (ok: bool, rects: seq<Rect>)
      requires |connections| == |tree|
      requires forall k :: 0 <= k < |tree| ==>
                 (connections[k].p0Rect, connections[k].p1Rect) == Resolve(rooms, tree[k])
      ensures (ok, rects) == PlannedHalls(rooms, tree, t)
    {
      rects := [];
      var k := 0;
      while k < |connections|
        invariant 0 <= k <= |connections|
        invariant PlannedHalls(rooms, tree[..k], t) == (true, rects)
      {
        var roomA := connections[k].p0Rect;
        var roomB := connections[k].p1Rect;
        assert tree[..k + 1][..k] == tree[..k];
        if roomA == null || roomB == null {
          PlannedHallsStop(rooms, tree, t, k + 1);
          return false, rects;
        }
        rects := rects + Halls.HallsBetween(roomA.rect, roomB.rect, t);
        k := k + 1;
      }
      assert tree[..k] == tree;
      return true, rects;
    }

    /**
     * The rooms of the planned halls, in order, each added to the map
     * rectangle as it is created.
     */
    static method MakeHallRooms(rects: seq<Rect>, bounds0: Rect) returns (hs: seq<Room>, bounds: Rect)
      ensures Rects(hs) == rects
      ensures bounds == MapBounds.ExtendAll(bounds0, rects)
      ensures forall h :: h in hs ==> fresh(h)
    {
      hs, bounds := [], bounds0;
      var k := 0;
      while k < |rects|
        invariant 0 <= k <= |rects|
        invariant |hs| == k && forall m :: 0 <= m < k ==> hs[m].rect == rects[m]
        invariant forall h :: h in hs ==> fresh(h)
        invariant bounds == MapBounds.ExtendAll(bounds0, rects[..k])
      {
        var hall := new Room.FromRect(rects[k]);
        hs := hs + [hall];
        bounds := MapBounds.Extend(bounds, hall.rect);
        assert rects[..k + 1][..k] == rects[..k];
        k := k + 1;
      }
      assert rects[..k] == rects;
    }

    /** The first loop of CreateHalls: roomsConnections, one new RoomEdge per spanning-tree segment. */
    method ConnectRooms()
      modifies this`roomsConnections
      ensures |roomsConnections| == |spanningTree|
      ensures forall k :: 0 <= k < |spanningTree| ==>
                fresh(roomsConnections[k]) && roomsConnections[k].lineSegment == spanningTree[k] &&
                (roomsConnections[k].p0Rect, roomsConnections[k].p1Rect) == Resolve(mainRooms, spanningTree[k])
    {
      var connections := EdgesFor(mainRooms, spanningTree);
      roomsConnections := connections;
    }

    /**
     * The second loop of CreateHalls: the halls of PlannedHalls, each a new
     * room, with the map rectangle widened by each in turn.
     */
    method BuildHalls() returns (ok: bool)
      requires |roomsConnections| == |spanningTree|
      requires forall k :: 0 <= k < |spanningTree| ==>
                 (roomsConnections[k].p0Rect, roomsConnections[k].p1Rect) == Resolve(mainRooms, spanningTree[k])
      modifies this`halls, this`mapRect
      ensures (ok, Rects(halls)) == old(PlannedHalls(mainRooms, spanningTree, settings.hallTickness))
      ensures mapRect == MapBounds.ExtendAll(old(mapRect), Rects(halls))
      ensures forall h :: h in halls ==> fresh(h)
    {
      var rects;
      ok, rects := PlanHalls(mainRooms, spanningTree, roomsConnections, settings.hallTickness);
      var hs, bounds := MakeHallRooms(rects, mapRect);
      halls, mapRect := hs, bounds;
    }

    /**
     * CreateHalls: the RoomEdges of the spanning tree, then the halls for
     * them. ok is false where the source throws NullReferenceException.
     */
    method CreateHalls() returns (ok: bool)
      modifies this`roomsConnections, this`halls, this`mapRect
      ensures |roomsConnections| == |spanningTree|
      ensures forall k :: 0 <= k < |spanningTree| ==>
                fresh(roomsConnections[k]) && roomsConnections[k].lineSegment == spanningTree[k] &&
                (roomsConnections[k].p0Rect, roomsConnections[k].p1Rect) == old(Resolve(mainRooms, spanningTree[k]))
      ensures (ok, Rects(halls)) == old(PlannedHalls(mainRooms, spanningTree, settings.hallTickness))
      ensures mapRect == MapBounds.ExtendAll(old(mapRect), Rects(halls))
      ensures forall h :: h in halls ==> fresh(h)
    {
      ConnectRooms();
      ok := BuildHalls();
    }

    /**
     * The inner loop of ReAddSecundaryRooms for hall h: the rooms collected
     * so far and the map rectangle, as locals, after the scan of allRooms.
     */
    static method CollectForHallScan(h: Room, rooms: seq<Room>, main: seq<Room>, secundary: seq<Room>, bounds: Rect, ghost start: Rect)
      returns (secundary': seq<Room>, bounds': Rect)
      requires bounds == MapBounds.ExtendAll(start, Rects(secundary))
      ensures secundary' == CollectForHall(h, rooms, main, secundary)
      ensures bounds' == MapBounds.ExtendAll(start, Rects(secundary'))
    {
      secundary', bounds' := secundary, bounds;
      var b := 0;
      while b < |rooms|
        invariant 0 <= b <= |rooms|
        invariant CollectForHall(h, rooms[b..], main, secundary') == CollectForHall(h, rooms, main, secundary)
        invariant bounds' == MapBounds.ExtendAll(start, Rects(secundary'))
      {
        var r := rooms[b];
        CollectForHallStep(h, rooms, b, main, secundary');
        if r !in main && r !in secundary' {
          if h.Overlaps(r) {
            bounds' := MapBounds.Extend(bounds', r.rect);
            RectsAppend(secundary', r);
            secundary' := secundary' + [r];
          }
        }
        b := b + 1;
      }
      CollectForHallEnd(h, main, secundary');
      assert rooms[b..] == [];
    }

    /**
     * ReAddSecundaryRooms: for each hall and each room of allRooms that is
     * neither a main room nor already collected, a room overlapping the hall
     * is collected and added to the map rectangle. The list and the
     * rectangle are built in locals and stored at the end.
     */
    method ReAddSecundaryRooms()
      modifies this`secundaryRooms, this`mapRect
      ensures secundaryRooms == CollectAll(halls, allRooms, mainRooms, [])
      ensures mapRect == MapBounds.ExtendAll(old(mapRect), Rects(secundaryRooms))
    {
      secundaryRooms, mapRect := CollectSecundaryRooms(halls, allRooms, mainRooms, mapRect);
    }

    /** The loop over the halls of ReAddSecundaryRooms, on the lists and the map rectangle as values. */
    static method CollectSecundaryRooms(hs: seq<Room>, rooms: seq<Room>, main: seq<Room>, bounds0: Rect)
      returns (secundary: seq<Room>, bounds: Rect)
      ensures secundary == CollectAll(hs, rooms, main, [])
      ensures bounds == MapBounds.ExtendAll(bounds0, Rects(secundary))
    {
      ghost var target := CollectAll(hs, rooms, main, []);
      secundary := [];
      bounds := bounds0;
      var a := 0;
      while a < |hs|
        invariant 0 <= a <= |hs|
        invariant CollectAll(hs[a..], rooms, main, secundary) == target
        invariant bounds == MapBounds.ExtendAll(bounds0, Rects(secundary))
      {
        CollectAllStep(hs, a, rooms, main, secundary);
        secundary, bounds := CollectForHallScan(hs[a], rooms, main, secundary, bounds, bounds0);
        a := a + 1;
      }
      assert hs[a..] == [];
    }

    /**
     * The room stages of GenerateDungeon: AddRooms, SeparateRoomsSilently
     * and SelectMainRooms. Afterwards at least minNumberOfMainRooms rooms
     * were counted, the new main rooms are large enough and at most
     * maxNumberOfMainRooms, no two remaining rooms overlap and, starting
     * without main rooms, no two main rooms overlap.
     */
    method PlaceRooms(draws: seq<RoomDraw>, mainDraws: nat -> RoomDraw)
      requires Distinct(allRooms)
      requires |draws| == RandomRoomCount()
      requires currentSeparationIteraction >= settings.maxSeparationIterations || settings.maxSeparationIterations >= 6
      modifies this`allRooms, this`currentNumberOfMainRooms, this`roomSeparationStepMultiplier,
               this`currentSeparationIteraction, this`mainRooms, this`mapRect, allRooms
      ensures currentNumberOfMainRooms >= settings.minNumberOfMainRooms
      ensures |old(mainRooms)| <= |mainRooms| <=
              |old(mainRooms)| + if settings.maxNumberOfMainRooms > 0 then settings.maxNumberOfMainRooms else 0
      ensures forall r :: r in mainRooms[|old(mainRooms)|..] ==>
                Qualifies(r, settings.minMainRoomWidth, settings.minMainRoomHeight)
      ensures PairwiseDisjointRooms(allRooms)
      ensures old(mainRooms) == [] ==> PairwiseDisjointRooms(mainRooms)
    {
      AddRooms(draws, mainDraws);
      SeparateStage();
      SelectStage();
    }

    /** SeparateRoomsSilently, after which no two rooms of allRooms overlap. */
    method SeparateStage()
      requires Distinct(allRooms)
      requires currentSeparationIteraction >= settings.maxSeparationIterations || settings.maxSeparationIterations >= 6
      modifies this`roomSeparationStepMultiplier, this`currentSeparationIteraction, this`allRooms, allRooms
      ensures PairwiseDisjointRooms(allRooms)
    {
      ghost var before := allRooms;
      SeparateRoomsSilently();
      CleanedFacts(before);
    }

    /**
     * SelectMainRooms on rooms no two of which overlap: the new main rooms
     * are large enough and at most maxNumberOfMainRooms, the remaining rooms
     * still do not overlap and, starting without main rooms, neither do the
     * main rooms.
     */
    method SelectStage()
      requires PairwiseDisjointRooms(allRooms)
      modifies this`allRooms, this`mainRooms, this`mapRect
      ensures |old(mainRooms)| <= |mainRooms| <=
              |old(mainRooms)| + if settings.maxNumberOfMainRooms > 0 then settings.maxNumberOfMainRooms else 0
      ensures forall r :: r in mainRooms[|old(mainRooms)|..] ==>
                Qualifies(r, settings.minMainRoomWidth, settings.minMainRoomHeight)
      ensures PairwiseDisjointRooms(allRooms)
      ensures old(mainRooms) == [] ==> PairwiseDisjointRooms(mainRooms)
    {
      var rooms, main := allRooms, mainRooms;
      var cap, minW, minH := settings.maxNumberOfMainRooms, settings.minMainRoomWidth, settings.minMainRoomHeight;
      label Picked:
      SelectMainRooms();
      assert PairwiseDisjointRooms(rooms);
      assert old@Picked(Select(rooms, main, cap, 0, minW, minH)) == Select(rooms, main, cap, 0, minW, minH);
      ghost var sel := Select(rooms, main, cap, 0, minW, minH);
      SelectFacts(rooms, main, cap, minW, minH);
      assert mainRooms[|old(mainRooms)|..] == sel.1;
    }

    /**
     * The graph stages of GenerateDungeon, with the triangulation and its
     * minimum spanning tree given: AddBackEdgesToSpanningTree, CreateHalls
     * and, when CreateHalls does not throw, ReAddSecundaryRooms.
     */
    method ConnectMainRooms(triangulation: seq<LineSegment>, tree: seq<LineSegment>,
                            shuffledTree: seq<LineSegment>, shuffledTri: seq<LineSegment>)
      returns (ok: bool)
      requires multiset(shuffledTree) == multiset(tree) && multiset(shuffledTri) == multiset(triangulation)
      modifies this`delaunayTriangulation, this`spanningTree, this`roomsConnections, this`halls,
               this`mapRect, this`secundaryRooms
      ensures delaunayTriangulation == triangulation
      ensures spanningTree == tree + Take(Outside(shuffledTri, shuffledTree),
                                          EdgesToAdd(settings.percentageOfEdgesToReaddToSpanningTree, |triangulation|))
      ensures ok <==> AllResolved(mainRooms, spanningTree)
      ensures ok ==> Rects(halls) == HallsOf(mainRooms, spanningTree, settings.hallTickness) &&
                     secundaryRooms == CollectAll(halls, allRooms, mainRooms, [])
    {
      delaunayTriangulation := triangulation;
      spanningTree := tree;
      AddBackEdgesToSpanningTree(shuffledTree, shuffledTri);
      ok := HallStages();
    }

    /** CreateHalls and, when it does not throw, ReAddSecundaryRooms. */
    method HallStages() returns (ok: bool)
      modifies this`roomsConnections, this`halls, this`mapRect, this`secundaryRooms
      ensures ok <==> AllResolved(mainRooms, spanningTree)
      ensures ok ==> Rects(halls) == HallsOf(mainRooms, spanningTree, settings.hallTickness) &&
                     secundaryRooms == CollectAll(halls, allRooms, mainRooms, [])
    {
      ok := CreateHalls();
      HallsUnchanged(mainRooms, spanningTree, settings.hallTickness);
      PlannedHallsCompletes(mainRooms, spanningTree, settings.hallTickness);
      PlannedHallsBuilt(mainRooms, spanningTree, settings.hallTickness);
      if ok {
        label Built:
        ReAddSecundaryRooms();
        HallsUnchanged@Built(mainRooms, spanningTree, settings.hallTickness);
        RectsUnchanged@Built(halls);
      }
    }

    /**
     * GenerateDungeon: the stages in order, with the triangulation and its
     * spanning tree given. Returns false where CreateHalls would throw.
     */
    method GenerateDungeon(draws: seq<RoomDraw>, mainDraws: nat -> RoomDraw,
                           triangulation: seq<LineSegment>, tree: seq<LineSegment>,
                           shuffledTree: seq<LineSegment>, shuffledTri: seq<LineSegment>)
      returns (ok: bool)
      requires Distinct(allRooms)
      requires |draws| == RandomRoomCount()
      requires currentSeparationIteraction >= settings.maxSeparationIterations || settings.maxSeparationIterations >= 6
      requires multiset(shuffledTree) == multiset(tree) && multiset(shuffledTri) == multiset(triangulation)
      modifies this, allRooms
      ensures currentNumberOfMainRooms >= settings.minNumberOfMainRooms
      ensures |old(mainRooms)| <= |mainRooms| <=
              |old(mainRooms)| + if settings.maxNumberOfMainRooms > 0 then settings.maxNumberOfMainRooms else 0
      ensures forall r :: r in mainRooms[|old(mainRooms)|..] ==>
                Qualifies(r, settings.minMainRoomWidth, settings.minMainRoomHeight)
      ensures PairwiseDisjointRooms(allRooms)
      ensures old(mainRooms) == [] ==> PairwiseDisjointRooms(mainRooms)
      ensures ok <==> AllResolved(mainRooms, spanningTree)
      ensures ok ==> Rects(halls) == HallsOf(mainRooms, spanningTree, settings.hallTickness) &&
                     secundaryRooms == CollectAll(halls, allRooms, mainRooms, [])
    {
      PlaceRooms(draws, mainDraws);
      ok := ConnectMainRooms(triangulation, tree, shuffledTree, shuffledTri);
    }
  }
}
