/**
 * What each stage of the dungeon generator computes, stated over lists of
 * rooms (objects, compared by reference, read through their rectangles) and
 * lists of segments. Dungeon.DungeonGenerator's methods are proved to
 * compute exactly these; the lemmas here state what the results guarantee.
 */
module DungeonSpecs {
  import opened Geometry
  import opened Rooms
  import opened Seqs
  import Halls
  import MapBounds

  /**
   * Delaunay.Geo.LineSegment, as produced by the triangulation library: two
   * end points. The library's segments are objects, so the generator's
   * List.Contains compares them by reference.
   */
  class LineSegment {
    const p0: Vec2
    const p1: Vec2

    constructor (p0: Vec2, p1: Vec2)
      ensures this.p0 == p0 && this.p1 == p1
    {
      this.p0 := p0;
      this.p1 := p1;
    }
  }

  /** RoomEdge: a spanning-tree segment with the main rooms holding its two end points (null when none). */
  class RoomEdge {
    var lineSegment: LineSegment
    var p0Rect: Room?
    var p1Rect: Room?

    constructor (lineSegment: LineSegment, p0Rect: Room?, p1Rect: Room?)
      ensures this.lineSegment == lineSegment && this.p0Rect == p0Rect && this.p1Rect == p1Rect
    {
      this.lineSegment := lineSegment;
      this.p0Rect := p0Rect;
      this.p1Rect := p1Rect;
    }

    method SetLineSegment(l: LineSegment)
      modifies this
      ensures lineSegment == l && p0Rect == old(p0Rect) && p1Rect == old(p1Rect)
    {
      lineSegment := l;
    }

    method SetP0Rect(r: Room?)
      modifies this
      ensures p0Rect == r && lineSegment == old(lineSegment) && p1Rect == old(p1Rect)
    {
      p0Rect := r;
    }

    method SetP1Rect(r: Room?)
      modifies this
      ensures p1Rect == r && lineSegment == old(lineSegment) && p0Rect == old(p0Rect)
    {
      p1Rect := r;
    }
  }

  /** The rectangles of a list of rooms, in order. */
  function Rects(rooms: seq<Room>): (rs: seq<Rect>)
    reads rooms
    ensures |rs| == |rooms| && forall k :: 0 <= k < |rooms| ==> rs[k] == rooms[k].rect
  {
    seq(|rooms|, k requires 0 <= k < |rooms| reads rooms => rooms[k].rect)
  }

  /** The main-room flags of a list of rooms, in order. */
  function Flags(rooms: seq<Room>): (fs: seq<bool>)
    reads rooms
    ensures |fs| == |rooms| && forall k :: 0 <= k < |rooms| ==> fs[k] == rooms[k].isMainRoom
  {
    seq(|rooms|, k requires 0 <= k < |rooms| reads rooms => rooms[k].isMainRoom)
  }

  /** Appending a room appends its rectangle. */
  lemma RectsAppend(rooms: seq<Room>, r: Room)
    ensures Rects(rooms + [r]) == Rects(rooms) + [r.rect]
  {
  }

  /** No room object occurs twice. */
  predicate Distinct<T(==)>(s: seq<T>) {
    forall p, q :: 0 <= p < q < |s| ==> s[p] != s[q]
  }

  lemma DistinctAppend<T>(s: seq<T>, x: T)
    requires Distinct(s) && x !in s
    ensures Distinct(s + [x])
  {
  }

  // ---------------------------------------------------------------------
  // Endpoint resolution (the first loop of CreateHalls)
  // ---------------------------------------------------------------------

  /**
   * The scan over the main rooms from index k with the rooms found so far:
   * a room containing p0 becomes r0; otherwise, a room containing p1 becomes
   * r1; the scan stops as soon as both are set.
   */
  function ResolveFrom(rooms: seq<Room>, p0: Vec2, p1: Vec2, k: nat, r0: Room?, r1: Room?): (r: (Room?, Room?))
    requires k <= |rooms| && (r0 == null || r1 == null)
    reads rooms
    ensures (r.0 == r0 || r.0 in rooms) && (r.1 == r1 || r.1 in rooms)
    decreases |rooms| - k
  {
    if k == |rooms| then (r0, r1)
    else
      var room := rooms[k];
      var r0' := if room.Contains(p0) then room else r0;
      var r1' := if !room.Contains(p0) && room.Contains(p1) then room else r1;
      if r0' != null && r1' != null then (r0', r1')
      else ResolveFrom(rooms, p0, p1, k + 1, r0', r1')
  }

  /**
   * The scan finds a p0 room exactly when a room from k on (or the one
   * already found) contains p0, and a p1 room exactly when one of them
   * contains p1 but not p0; a newly found room comes from rooms[k..].
   */
  lemma {:induction false} ResolveFromFinds(rooms: seq<Room>, p0: Vec2, p1: Vec2, k: nat, r0: Room?, r1: Room?)
    requires k <= |rooms| && (r0 == null || r1 == null)
    ensures var r := ResolveFrom(rooms, p0, p1, k, r0, r1);
            (r.0 == null <==> r0 == null && forall i :: k <= i < |rooms| ==> !rooms[i].Contains(p0)) &&
            (r.0 != null && r.0 != r0 ==> r.0 in rooms[k..] && r.0.Contains(p0)) &&
            (r.1 == null <==> r1 == null && forall i :: k <= i < |rooms| ==> !(rooms[i].Contains(p1) && !rooms[i].Contains(p0))) &&
            (r.1 != null && r.1 != r1 ==> r.1 in rooms[k..] && r.1.Contains(p1) && !r.1.Contains(p0))
    decreases |rooms| - k
  {
    if k < |rooms| {
      var room := rooms[k];
      var r0' := if room.Contains(p0) then room else r0;
      var r1' := if !room.Contains(p0) && room.Contains(p1) then room else r1;
      if r0' == null || r1' == null {
        ResolveFromFinds(rooms, p0, p1, k + 1, r0', r1');
        assert rooms[k + 1..] <= rooms[k..][1..];
      }
    }
  }

  /** The rooms CreateHalls records for segment l. */
  function Resolve(rooms: seq<Room>, l: LineSegment): (r: (Room?, Room?))
    reads rooms
    ensures (r.0 == null || r.0 in rooms) && (r.1 == null || r.1 in rooms)
  {
    ResolveFrom(rooms, l.p0, l.p1, 0, null, null)
  }

  /**
   * The p0 room exists exactly when some room contains p0, and then
   * contains it; the p1 room exists exactly when some room contains p1 but
   * not p0, and then is such a room.
   */
  lemma {:induction false} ResolveFinds(rooms: seq<Room>, l: LineSegment)
    ensures var r := Resolve(rooms, l);
            (r.0 != null <==> exists i :: 0 <= i < |rooms| && rooms[i].Contains(l.p0)) &&
            (r.0 != null ==> r.0 in rooms && r.0.Contains(l.p0)) &&
            (r.1 != null <==> exists i :: 0 <= i < |rooms| && rooms[i].Contains(l.p1) && !rooms[i].Contains(l.p0)) &&
            (r.1 != null ==> r.1 in rooms && r.1.Contains(l.p1) && !r.1.Contains(l.p0))
  {
    ResolveFromFinds(rooms, l.p0, l.p1, 0, null, null);
    assert rooms[0..] == rooms;
  }

  /** Both end points of every segment lie in main rooms, so CreateHalls dereferences no null room. */
  predicate AllResolved(rooms: seq<Room>, tree: seq<LineSegment>)
    reads rooms
  {
    forall k :: 0 <= k < |tree| ==> Resolve(rooms, tree[k]).0 != null && Resolve(rooms, tree[k]).1 != null
  }

  /**
   * Because of the `else if`, a room that contains both end points is only
   * ever taken as the p0 room: a segment lying inside a single room gets no
   * p1 room.
   */
  lemma {:induction false} SegmentInsideOneRoomUnresolved(rooms: seq<Room>, l: LineSegment)
    requires forall i :: 0 <= i < |rooms| ==> (rooms[i].Contains(l.p1) ==> rooms[i].Contains(l.p0))
    ensures Resolve(rooms, l).1 == null
  {
    ResolveFinds(rooms, l);
  }

  // ---------------------------------------------------------------------
  // Cleanup: removing rooms that still overlap an earlier one
  // ---------------------------------------------------------------------

  /** The rooms of s that do not overlap x, in order (the inner loop with RemoveAt and j--). */
  function Survivors(s: seq<Room>, x: Room): (r: seq<Room>)
    reads s, x
    ensures |r| <= |s|
    decreases |s|
  {
    if s == [] then
      []
    else
      var init := Survivors(s[..|s| - 1], x);
      var last := s[|s| - 1];
      if x.Overlaps(last) then init else init + [last]
  }

  /** The survivors are exactly the rooms of s that do not overlap x, in their order in s. */
  lemma {:induction false} SurvivorsFacts(s: seq<Room>, x: Room)
    ensures var r := Survivors(s, x);
            (forall y :: y in r ==> y in s && !x.Overlaps(y)) &&
            (forall y :: y in s && !x.Overlaps(y) ==> y in r) &&
            IsSubseq(r, s)
    decreases |s|
  {
    if s == [] {
      SubseqOfEmpty(s);
    } else {
      var init := Survivors(s[..|s| - 1], x);
      SurvivorsFacts(s[..|s| - 1], x);
      SurvivorsSubseqStep(init, s, x);
      assert s == s[..|s| - 1] + [s[|s| - 1]];
    }
  }

  /** Scanning one more room after index i either drops it or appends it. */
  lemma SurvivorsExtend(rooms: seq<Room>, i: nat, k: nat)
    requires i < k < |rooms|
    ensures Survivors(rooms[i + 1..k + 1], rooms[i]) ==
              if rooms[i].Overlaps(rooms[k]) then Survivors(rooms[i + 1..k], rooms[i])
              else Survivors(rooms[i + 1..k], rooms[i]) + [rooms[k]]
  {
    var seen := rooms[i + 1..k + 1];
    assert seen[..|seen| - 1] == rooms[i + 1..k];
  }

  /**
   * The list shape inside the inner cleanup loop: with rooms i+1..k-1
   * scanned into kept, position j holds room k, and removing it or keeping
   * it gives the same shape one room further on.
   */
  lemma CleanLoopStep(rooms: seq<Room>, i: nat, k: nat, kept: seq<Room>, rs: seq<Room>, j: nat)
    requires i < k < |rooms| && rs == rooms[..i + 1] + kept + rooms[k..] && j == i + 1 + |kept|
    ensures j < |rs| && rs[i] == rooms[i] && rs[j] == rooms[k]
    ensures rs[..j] + rs[j + 1..] == rooms[..i + 1] + kept + rooms[k + 1..]
    ensures rs == rooms[..i + 1] + (kept + [rooms[k]]) + rooms[k + 1..]
  {
    assert rooms[k..] == [rooms[k]] + rooms[k + 1..];
    AppendAssoc(rooms[..i + 1] + kept, [rooms[k]], rooms[k + 1..]);
    assert rs[..j] == rooms[..i + 1] + kept && rs[j + 1..] == rooms[k + 1..];
  }

  lemma SurvivorsSubseqStep(init: seq<Room>, s: seq<Room>, x: Room)
    requires s != [] && IsSubseq(init, s[..|s| - 1])
    ensures IsSubseq(init, s) && IsSubseq(init + [s[|s| - 1]], s)
  {
    AppendSubseq(init, s[..|s| - 1], s[|s| - 1]);
    assert s[..|s| - 1] + [s[|s| - 1]] == s;
  }

  /** Rooms at positions before i overlap nothing after them. */
  predicate DisjointBefore(rs: seq<Room>, i: int)
    reads rs
  {
    forall p, q :: 0 <= p < i && p < q < |rs| ==> !rs[p].Overlaps(rs[q])
  }

  /** No room of the list overlaps a later one. */
  predicate PairwiseDisjointRooms(rs: seq<Room>)
    reads rs
  {
    forall p, q :: 0 <= p < q < |rs| ==> !rs[p].Overlaps(rs[q])
  }

  /** The list after the inner loop for index i: rs[i] kept, the later rooms overlapping it removed. */
  function CleanStep(rs: seq<Room>, i: nat): (r: seq<Room>)
    requires i < |rs|
    reads rs
    ensures |r| <= |rs|
  {
    rs[..i + 1] + Survivors(rs[i + 1..], rs[i])
  }

  /**
   * The step keeps rooms 0..i, and after them exactly the later rooms that
   * do not overlap rs[i], in order.
   */
  lemma {:induction false} CleanStepFacts(rs: seq<Room>, i: nat)
    requires i < |rs|
    ensures i + 1 <= |CleanStep(rs, i)| && CleanStep(rs, i)[..i + 1] == rs[..i + 1]
    ensures IsSubseq(CleanStep(rs, i), rs)
    ensures forall y :: y in CleanStep(rs, i) ==> y in rs
    ensures var kept, later := CleanStep(rs, i)[i + 1..], rs[i + 1..];
            (forall y :: y in kept ==> y in later && !rs[i].Overlaps(y)) &&
            (forall y :: y in later && !rs[i].Overlaps(y) ==> y in kept)
  {
    var sv := Survivors(rs[i + 1..], rs[i]);
    var r := rs[..i + 1] + sv;
    SurvivorsFacts(rs[i + 1..], rs[i]);
    assert r[i + 1..] == sv;
    SubseqPrefixAppend(rs[..i + 1], sv, rs[i + 1..]);
    assert rs[..i + 1] + rs[i + 1..] == rs;
    SubseqMembers(r, rs);
  }

  /** Once rooms 0..i-1 are disjoint from everything after them, the step for i extends that to 0..i. */
  lemma {:induction false} CleanStepExtendsDisjoint(rs: seq<Room>, i: nat)
    requires i < |rs|
    ensures DisjointBefore(rs, i) ==> DisjointBefore(CleanStep(rs, i), i + 1)
  {
    if DisjointBefore(rs, i) {
      var r := CleanStep(rs, i);
      CleanStepFacts(rs, i);
      forall p, q | 0 <= p < i + 1 && p < q < |r|
        ensures !r[p].Overlaps(r[q])
      {
        if q <= i {
          assert r[p] == rs[p] && r[q] == rs[q];
        } else {
          assert r[q] == r[i + 1..][q - (i + 1)];
          assert r[q] in r[i + 1..];
          assert r[q] in rs[i + 1..] && !rs[i].Overlaps(r[q]);
          var q' :| i + 1 <= q' < |rs| && rs[q'] == r[q];
          assert rs[q'] == rs[i + 1..][q' - (i + 1)];
          if p < i {
            assert r[p] == rs[p];
          } else {
            assert r[p] == rs[i];
          }
        }
      }
    }
  }

  /**
   * The cleanup loops of SeparateRoomsSilently from outer index i: every
   * room removes the later rooms that overlap it, in list order.
   */
  function CleanFrom(rs: seq<Room>, i: nat): (r: seq<Room>)
    reads set x | x in rs
    decreases |rs| - i
  {
    if i >= |rs| then rs
    else
      CleanStepFacts(rs, i);
      CleanFrom(CleanStep(rs, i), i + 1)
  }

  /** The cleanup from i keeps rooms 0..i-1 in place and the rest of what it keeps in order. */
  lemma {:induction false} CleanFromFacts(rs: seq<Room>, i: nat)
    ensures var r := CleanFrom(rs, i);
            |r| <= |rs| && (i <= |rs| ==> i <= |r| && r[..i] == rs[..i]) && IsSubseq(r, rs)
    decreases |rs| - i
  {
    if i >= |rs| {
      SubseqRefl(rs);
    } else {
      var next := CleanStep(rs, i);
      var r := CleanFrom(next, i + 1);
      CleanStepFacts(rs, i);
      CleanFromFacts(next, i + 1);
      SubseqTrans(r, next, rs);
      assert r[..i] == r[..i + 1][..i];
      assert next[..i] == next[..i + 1][..i];
    }
  }

  /** If the rooms before i already overlap nothing after them, no two rooms left by the cleanup from i overlap. */
  lemma {:induction false} CleanFromDisjoint(rs: seq<Room>, i: nat)
    requires DisjointBefore(rs, i)
    ensures PairwiseDisjointRooms(CleanFrom(rs, i))
    decreases |rs| - i
  {
    if i < |rs| {
      CleanStepExtendsDisjoint(rs, i);
      CleanFromDisjoint(CleanStep(rs, i), i + 1);
    } else {
      assert CleanFrom(rs, i) == rs;
    }
  }

  /**
   * Every room the cleanup from i removes overlaps a room it keeps that
   * comes before it in the list: of two overlapping rooms, the earlier one
   * wins.
   */
  lemma {:induction false} CleanFromRemovedOverlap(rs: seq<Room>, i: nat)
    ensures forall y :: y in rs && y !in CleanFrom(rs, i) ==>
              exists x :: x in CleanFrom(rs, i) && x.Overlaps(y) && Before(rs, x, y)
    decreases |rs| - i
  {
    if i < |rs| {
      var next := CleanStep(rs, i);
      var r := CleanFrom(next, i + 1);
      assert r == CleanFrom(rs, i);
      CleanStepFacts(rs, i);
      CleanFromFacts(next, i + 1);
      assert r[..i + 1] == next[..i + 1];
      assert rs[i] == next[i] == r[i];
      CleanFromRemovedOverlap(next, i + 1);
      RemovedOverlapStep(rs, i, r);
    }
  }

  /**
   * One step of the induction above: if room i survives in r, and every room
   * of the stepped list missing from r overlaps an earlier room of r, then so
   * does every room of rs missing from r.
   */
  lemma RemovedOverlapStep(rs: seq<Room>, i: nat, r: seq<Room>)
    requires i < |rs| && rs[i] in r
    requires forall y :: y in CleanStep(rs, i) && y !in r ==>
               exists x :: x in r && x.Overlaps(y) && Before(CleanStep(rs, i), x, y)
    ensures forall y :: y in rs && y !in r ==> exists x :: x in r && x.Overlaps(y) && Before(rs, x, y)
  {
    var next := CleanStep(rs, i);
    CleanStepFacts(rs, i);
    forall y | y in rs && y !in r
      ensures exists x :: x in r && x.Overlaps(y) && Before(rs, x, y)
    {
      if y !in next {
        DroppedOverlaps(rs, i, y);
      } else {
        var x :| x in r && x.Overlaps(y) && Before(next, x, y);
        SubseqKeepsBefore(next, rs, x, y);
      }
    }
  }

  lemma {:induction false} DroppedOverlaps(rs: seq<Room>, i: nat, y: Room)
    requires i < |rs| && y in rs && y !in CleanStep(rs, i)
    ensures rs[i].Overlaps(y) && Before(rs, rs[i], y)
  {
    var next := CleanStep(rs, i);
    CleanStepFacts(rs, i);
    assert rs == rs[..i + 1] + rs[i + 1..];
    assert y !in rs[..i + 1] by {
      assert next[..i + 1] == rs[..i + 1];
    }
    assert y in rs[i + 1..];
    var k :| 0 <= k < |rs[i + 1..]| && rs[i + 1..][k] == y;
    assert rs[i + 1 + k] == y;
  }

  /** The cleanup pass over the whole list. */
  function Cleaned(rs: seq<Room>): seq<Room>
    reads rs
  {
    CleanFrom(rs, 0)
  }

  /**
   * After the cleanup no two remaining rooms overlap, the survivors keep
   * their order, the first room always survives, and every removed room
   * overlaps a survivor that comes before it.
   */
  lemma {:induction false} CleanedFacts(rs: seq<Room>)
    ensures var r := Cleaned(rs);
            PairwiseDisjointRooms(r) &&
            IsSubseq(r, rs) &&
            (rs != [] ==> r != [] && r[0] == rs[0]) &&
            (forall y :: y in rs && y !in r ==> exists x :: x in r && x.Overlaps(y) && Before(rs, x, y))
  {
    CleanFromDisjoint(rs, 0);
    CleanFromRemovedOverlap(rs, 0);
    CleanFromFacts(rs, 0);
    if rs != [] {
      CleanFromFacts(rs, 1);
      CleanStepFacts(rs, 0);
      CleanFromFacts(CleanStep(rs, 0), 1);
    }
  }

  /**
   * On a list without repeated rooms: the room at index q is removed only
   * when a room at a smaller index survives and overlaps it.
   */
  lemma {:induction false} CleanedRemovedOverlapsEarlier(rs: seq<Room>)
    requires Distinct(rs)
    ensures var r := Cleaned(rs);
            forall q :: 0 <= q < |rs| && rs[q] !in r ==>
              exists p :: 0 <= p < q && rs[p] in r && rs[p].Overlaps(rs[q])
  {
    var r := Cleaned(rs);
    CleanFromRemovedOverlap(rs, 0);
    forall q | 0 <= q < |rs| && rs[q] !in r
      ensures exists p :: 0 <= p < q && rs[p] in r && rs[p].Overlaps(rs[q])
    {
      var x :| x in r && x.Overlaps(rs[q]) && Before(rs, x, rs[q]);
      var p, q' :| 0 <= p < q' < |rs| && rs[p] == x && rs[q'] == rs[q];
      assert q' == q;
    }
  }

  /** A list with no overlapping pair survives the cleanup unchanged. */
  lemma {:induction false} CleanFromKeepsDisjoint(rs: seq<Room>, i: nat)
    requires PairwiseDisjointRooms(rs)
    ensures CleanFrom(rs, i) == rs
    decreases |rs| - i
  {
    if i < |rs| {
      var sv := Survivors(rs[i + 1..], rs[i]);
      SurvivorsAll(rs[i + 1..], rs[i]);
      assert rs[..i + 1] + rs[i + 1..] == rs;
      CleanFromKeepsDisjoint(rs, i + 1);
    }
  }

  lemma {:induction false} SurvivorsAll(s: seq<Room>, x: Room)
    requires forall y :: y in s ==> !x.Overlaps(y)
    ensures Survivors(s, x) == s
    decreases |s|
  {
    if s != [] {
      SurvivorsAll(s[..|s| - 1], x);
      assert s[..|s| - 1] + [s[|s| - 1]] == s;
    }
  }

  /** Keeping only some rooms, in order, keeps them pairwise disjoint. */
  lemma {:induction false} SubseqKeepsDisjoint(a: seq<Room>, b: seq<Room>)
    requires IsSubseq(a, b) && PairwiseDisjointRooms(b)
    ensures PairwiseDisjointRooms(a)
    decreases |b|
  {
    if a != [] {
      assert PairwiseDisjointRooms(b[1..]);
      if a[0] == b[0] && IsSubseq(a[1..], b[1..]) {
        SubseqKeepsDisjoint(a[1..], b[1..]);
        SubseqMembers(a[1..], b[1..]);
        forall p, q | 0 <= p < q < |a|
          ensures !a[p].Overlaps(a[q])
        {
          if p == 0 {
            assert a[q] == a[1..][q - 1];
            assert a[q] in a[1..];
            assert a[q] in b[1..];
            var q' :| 0 <= q' < |b[1..]| && b[1..][q'] == a[q];
            assert b[q' + 1] == a[q];
          } else {
            assert a[p] == a[1..][p - 1] && a[q] == a[1..][q - 1];
          }
        }
      } else {
        SubseqKeepsDisjoint(a, b[1..]);
      }
    }
  }

  // ---------------------------------------------------------------------
  // Main room selection
  // ---------------------------------------------------------------------

  /** A room large enough to be a main room. */
  predicate Qualifies(r: Room, minWidth: real, minHeight: real)
    reads r
  {
    r.Width() >= minWidth && r.Height() >= minHeight
  }

  /**
   * SelectMainRooms from the current position on, with `selected` rooms
   * already taken and `main` the main rooms so far: scanning in order while
   * fewer than `cap` are taken, a qualifying room not yet among the main
   * rooms moves to them. Returns the rooms left in the list and the rooms
   * taken, in order.
   */
  function Select(rooms: seq<Room>, main: seq<Room>, cap: int, selected: int, minWidth: real, minHeight: real)
    : (res: (seq<Room>, seq<Room>))
    reads rooms
    decreases |rooms|
  {
    if rooms == [] || selected >= cap then
      (rooms, [])
    else
      var r := rooms[0];
      if Qualifies(r, minWidth, minHeight) && r !in main then
        var rest := Select(rooms[1..], main + [r], cap, selected + 1, minWidth, minHeight);
        (rest.0, [r] + rest.1)
      else
        var rest := Select(rooms[1..], main, cap, selected, minWidth, minHeight);
        ([r] + rest.0, rest.1)
  }

  /** One step of the scan, at position i of the list. */
  lemma SelectStep(rooms: seq<Room>, i: nat, main: seq<Room>, cap: int, selected: int, minWidth: real, minHeight: real)
    requires i < |rooms| && selected < cap
    ensures var r := rooms[i];
            Select(rooms[i..], main, cap, selected, minWidth, minHeight) ==
              if Qualifies(r, minWidth, minHeight) && r !in main then
                var rest := Select(rooms[i + 1..], main + [r], cap, selected + 1, minWidth, minHeight);
                (rest.0, [r] + rest.1)
              else
                var rest := Select(rooms[i + 1..], main, cap, selected, minWidth, minHeight);
                ([r] + rest.0, rest.1)
  {
    assert rooms[i..][1..] == rooms[i + 1..];
  }

  /** Taking the qualifying room at i keeps the scan's split of the original list. */
  lemma {:induction false} SelectTakes(rooms: seq<Room>, i: nat, main: seq<Room>, cap: int, selected: int,
                                      minWidth: real, minHeight: real, picked: seq<Room>, kept: seq<Room>, chosen: seq<Room>)
    requires i < |rooms| && selected < cap
    requires Qualifies(rooms[i], minWidth, minHeight) && rooms[i] !in main
    requires var rest := Select(rooms[i..], main, cap, selected, minWidth, minHeight);
             rooms[..i] + rest.0 == kept && picked + rest.1 == chosen
    ensures var left := rooms[..i] + rooms[i + 1..];
            var rest := Select(left[i..], main + [rooms[i]], cap, selected + 1, minWidth, minHeight);
            left[..i] + rest.0 == kept && (picked + [rooms[i]]) + rest.1 == chosen
  {
    var r := rooms[i];
    var left := rooms[..i] + rooms[i + 1..];
    SelectStep(rooms, i, main, cap, selected, minWidth, minHeight);
    assert left[i..] == rooms[i + 1..];
    assert left[..i] == rooms[..i];
    var rest := Select(rooms[i + 1..], main + [r], cap, selected + 1, minWidth, minHeight);
    AppendAssoc(picked, [r], rest.1);
  }

  /** Passing over the room at i keeps the scan's split of the original list. */
  lemma {:induction false} SelectSkips(rooms: seq<Room>, i: nat, main: seq<Room>, cap: int, selected: int,
                                      minWidth: real, minHeight: real, picked: seq<Room>, kept: seq<Room>, chosen: seq<Room>)
    requires i < |rooms| && selected < cap
    requires !(Qualifies(rooms[i], minWidth, minHeight) && rooms[i] !in main)
    requires var rest := Select(rooms[i..], main, cap, selected, minWidth, minHeight);
             rooms[..i] + rest.0 == kept && picked + rest.1 == chosen
    ensures var rest := Select(rooms[i + 1..], main, cap, selected, minWidth, minHeight);
            rooms[..i + 1] + rest.0 == kept && picked + rest.1 == chosen
  {
    var r := rooms[i];
    SelectStep(rooms, i, main, cap, selected, minWidth, minHeight);
    var rest := Select(rooms[i + 1..], main, cap, selected, minWidth, minHeight);
    TakeOneMore(rooms, i);
    AppendAssoc(rooms[..i], [r], rest.0);
  }

  /** The map rectangle over one more picked room is the old one extended by that room. */
  lemma ExtendPicked(bounds: Rect, picked: seq<Room>, r: Room)
    ensures MapBounds.ExtendAll(bounds, Rects(picked + [r])) == MapBounds.Extend(MapBounds.ExtendAll(bounds, Rects(picked)), r.rect)
  {
    RectsAppend(picked, r);
    assert (Rects(picked) + [r.rect])[..|picked|] == Rects(picked);
  }

  /**
   * Every room ends up either left or taken (as a multiset, so none is lost
   * or duplicated); at most cap - selected rooms are taken, each large enough
   * and not already a main room.
   */
  lemma {:induction false} SelectSplits(rooms: seq<Room>, main: seq<Room>, cap: int, selected: int,
                                        minWidth: real, minHeight: real)
    ensures var res := Select(rooms, main, cap, selected, minWidth, minHeight);
            multiset(res.0) + multiset(res.1) == multiset(rooms) &&
            |res.1| <= (if cap - selected > 0 then cap - selected else 0) &&
            forall r :: r in res.1 ==> Qualifies(r, minWidth, minHeight) && r !in main
    decreases |rooms|
  {
    if rooms != [] && selected < cap {
      var r := rooms[0];
      assert rooms == [r] + rooms[1..];
      if Qualifies(r, minWidth, minHeight) && r !in main {
        SelectSplits(rooms[1..], main + [r], cap, selected + 1, minWidth, minHeight);
      } else {
        SelectSplits(rooms[1..], main, cap, selected, minWidth, minHeight);
      }
    }
  }

  /** Both the rooms left and the rooms taken keep their order in the list. */
  lemma {:induction false} SelectKeepsOrder(rooms: seq<Room>, main: seq<Room>, cap: int, selected: int,
                                            minWidth: real, minHeight: real)
    ensures var res := Select(rooms, main, cap, selected, minWidth, minHeight);
            IsSubseq(res.0, rooms) && IsSubseq(res.1, rooms)
    decreases |rooms|
  {
    if rooms == [] || selected >= cap {
      SubseqRefl(rooms);
    } else {
      var r := rooms[0];
      assert rooms == [r] + rooms[1..];
      if Qualifies(r, minWidth, minHeight) && r !in main {
        var rest := Select(rooms[1..], main + [r], cap, selected + 1, minWidth, minHeight);
        SelectKeepsOrder(rooms[1..], main + [r], cap, selected + 1, minWidth, minHeight);
        SubseqCons(r, rest.1, rooms[1..]);
        SubseqCons(r, rest.0, rooms[1..]);
      } else {
        var rest := Select(rooms[1..], main, cap, selected, minWidth, minHeight);
        SelectKeepsOrder(rooms[1..], main, cap, selected, minWidth, minHeight);
        SubseqCons(r, rest.0, rooms[1..]);
        SubseqCons(r, rest.1, rooms[1..]);
      }
    }
  }

  /** Every room of rs is at least minWidth wide and minHeight high. */
  predicate AllQualify(rs: seq<Room>, minWidth: real, minHeight: real)
    reads rs
  {
    forall r :: r in rs ==> Qualifies(r, minWidth, minHeight)
  }

  /**
   * From rooms no two of which overlap, the selection picks at most cap
   * rooms, all large enough, and neither the picked nor the remaining rooms
   * overlap one another.
   */
  lemma SelectFacts(rooms: seq<Room>, main: seq<Room>, cap: int, minWidth: real, minHeight: real)
    requires PairwiseDisjointRooms(rooms)
    ensures var res := Select(rooms, main, cap, 0, minWidth, minHeight);
            |res.1| <= (if cap > 0 then cap else 0) && AllQualify(res.1, minWidth, minHeight) &&
            PairwiseDisjointRooms(res.0) && PairwiseDisjointRooms(res.1)
  {
    var res := Select(rooms, main, cap, 0, minWidth, minHeight);
    SelectSplits(rooms, main, cap, 0, minWidth, minHeight);
    SelectKeepsOrder(rooms, main, cap, 0, minWidth, minHeight);
    SubseqKeepsDisjoint(res.0, rooms);
    SubseqKeepsDisjoint(res.1, rooms);
  }

  /** No room is taken twice, even when it occurs twice in the list. */
  lemma {:induction false} SelectTakesEachOnce(rooms: seq<Room>, main: seq<Room>, cap: int, selected: int,
                                               minWidth: real, minHeight: real)
    ensures Distinct(Select(rooms, main, cap, selected, minWidth, minHeight).1)
    decreases |rooms|
  {
    if rooms != [] && selected < cap {
      var r := rooms[0];
      if Qualifies(r, minWidth, minHeight) && r !in main {
        SelectTakesEachOnce(rooms[1..], main + [r], cap, selected + 1, minWidth, minHeight);
        var rest := Select(rooms[1..], main + [r], cap, selected + 1, minWidth, minHeight);
        SelectSplits(rooms[1..], main + [r], cap, selected + 1, minWidth, minHeight);
        assert r !in rest.1;
        assert forall k :: 0 < k < |[r] + rest.1| ==> ([r] + rest.1)[k] == rest.1[k - 1];
      } else {
        SelectTakesEachOnce(rooms[1..], main, cap, selected, minWidth, minHeight);
      }
    }
  }

  /** When the cap is not reached, every qualifying room left in the list is already a main room. */
  lemma {:induction false} SelectUnderCapTakesAll(rooms: seq<Room>, main: seq<Room>, cap: int, selected: int,
                                                  minWidth: real, minHeight: real)
    ensures var res := Select(rooms, main, cap, selected, minWidth, minHeight);
            |res.1| < cap - selected ==>
              forall r :: r in res.0 ==> !Qualifies(r, minWidth, minHeight) || r in main || r in res.1
    decreases |rooms|
  {
    if rooms != [] && selected < cap {
      var r := rooms[0];
      if Qualifies(r, minWidth, minHeight) && r !in main {
        SelectUnderCapTakesAll(rooms[1..], main + [r], cap, selected + 1, minWidth, minHeight);
      } else {
        SelectUnderCapTakesAll(rooms[1..], main, cap, selected, minWidth, minHeight);
      }
    }
  }

  /** The qualifying rooms of a list, in order. */
  function QualifyingRooms(rooms: seq<Room>, minWidth: real, minHeight: real): (q: seq<Room>)
    reads rooms
    ensures forall r :: r in q ==> r in rooms && Qualifies(r, minWidth, minHeight)
    ensures forall r :: r in rooms && Qualifies(r, minWidth, minHeight) ==> r in q
    decreases |rooms|
  {
    if rooms == [] then []
    else
      assert rooms == [rooms[0]] + rooms[1..];
      (if Qualifies(rooms[0], minWidth, minHeight) then [rooms[0]] else []) +
      QualifyingRooms(rooms[1..], minWidth, minHeight)
  }

  /**
   * When no room occurs twice and none is a main room yet, the selection
   * takes exactly the first (cap - selected) qualifying rooms.
   */
  lemma {:induction false} SelectTakesFirstQualifying(rooms: seq<Room>, main: seq<Room>, cap: int, selected: int,
                                                    minWidth: real, minHeight: real)
    requires Distinct(rooms)
    requires forall r :: r in rooms ==> r !in main
    ensures Select(rooms, main, cap, selected, minWidth, minHeight).1
            == Take(QualifyingRooms(rooms, minWidth, minHeight), cap - selected)
    decreases |rooms|
  {
    if rooms != [] && selected < cap {
      var r := rooms[0];
      assert rooms == [r] + rooms[1..];
      assert Distinct(rooms[1..]);
      var q := QualifyingRooms(rooms[1..], minWidth, minHeight);
      if Qualifies(r, minWidth, minHeight) {
        assert r !in rooms[1..];
        SelectTakesFirstQualifying(rooms[1..], main + [r], cap, selected + 1, minWidth, minHeight);
        var rest := Select(rooms[1..], main + [r], cap, selected + 1, minWidth, minHeight);
        assert Select(rooms, main, cap, selected, minWidth, minHeight).1 == [r] + rest.1;
        assert QualifyingRooms(rooms, minWidth, minHeight) == [r] + q;
        if cap - selected - 1 < |q| {
          assert ([r] + q)[..cap - selected] == [r] + q[..cap - selected - 1];
        }
      } else {
        SelectTakesFirstQualifying(rooms[1..], main, cap, selected, minWidth, minHeight);
        var rest := Select(rooms[1..], main, cap, selected, minWidth, minHeight);
        assert Select(rooms, main, cap, selected, minWidth, minHeight).1 == rest.1;
        assert QualifyingRooms(rooms, minWidth, minHeight) == q;
      }
    }
  }

  // ---------------------------------------------------------------------
  // Back edges
  // ---------------------------------------------------------------------

  /** The segments of tri that are not in tree, in tri's order (membership is by reference). */
  function Outside(tri: seq<LineSegment>, tree: seq<LineSegment>): (r: seq<LineSegment>)
    ensures |r| <= |tri|
    decreases |tri|
  {
    if tri == [] then []
    else
      var last := tri[|tri| - 1];
      Outside(tri[..|tri| - 1], tree) + (if last in tree then [] else [last])
  }

  /** Outside keeps exactly the segments of tri that are not in tree. */
  lemma {:induction false} OutsideMembers(tri: seq<LineSegment>, tree: seq<LineSegment>)
    ensures forall e :: e in Outside(tri, tree) <==> e in tri && e !in tree
    decreases |tri|
  {
    if tri != [] {
      var last := tri[|tri| - 1];
      assert tri == tri[..|tri| - 1] + [last];
      OutsideMembers(tri[..|tri| - 1], tree);
    }
  }

  /** Scanning a prefix of tri finds a prefix of the segments outside the tree. */
  lemma {:induction false} OutsidePrefix(tri: seq<LineSegment>, tree: seq<LineSegment>, i: nat)
    requires i <= |tri|
    ensures Outside(tri[..i], tree) <= Outside(tri, tree)
    decreases |tri|
  {
    if i < |tri| {
      OutsidePrefix(tri[..|tri| - 1], tree, i);
      assert tri[..|tri| - 1][..i] == tri[..i];
    } else {
      assert tri[..i] == tri;
    }
  }

  /** Filtering a concatenation filters each part. */
  lemma {:induction false} OutsideAppend(a: seq<LineSegment>, b: seq<LineSegment>, tree: seq<LineSegment>)
    ensures Outside(a + b, tree) == Outside(a, tree) + Outside(b, tree)
    decreases |b|
  {
    if b == [] {
      assert a + b == a;
    } else {
      var b', x := b[..|b| - 1], b[|b| - 1];
      OutsideAppend(a, b', tree);
      assert (a + b)[..|a + b| - 1] == a + b';
      assert (a + b)[|a + b| - 1] == x;
      var tail := if x in tree then [] else [x];
      assert Outside(a + b, tree) == Outside(a + b', tree) + tail;
      assert Outside(b, tree) == Outside(b', tree) + tail;
    }
  }

  /** How many segments lie outside the tree depends only on which segments there are, not on their order. */
  lemma {:induction false} OutsideSizeOfPermutation(s1: seq<LineSegment>, s2: seq<LineSegment>, tree: seq<LineSegment>)
    requires multiset(s1) == multiset(s2)
    ensures |Outside(s1, tree)| == |Outside(s2, tree)|
    decreases |s1|
  {
    if s1 == [] {
      assert |s2| == |multiset(s2)| == 0;
    } else {
      var n := |s1| - 1;
      var x := s1[n];
      assert s1 == s1[..n] + [x];
      assert x in multiset(s2);
      var k :| 0 <= k < |s2| && s2[k] == x;
      var rest := s2[..k] + s2[k + 1..];
      RemoveOneMultiset(s2, k);
      assert multiset(s1[..n]) == multiset(s1) - multiset{x};
      OutsideSizeOfPermutation(s1[..n], rest, tree);
      OutsideRemoveOne(s2, k, tree);
    }
  }

  /** Removing the element at k takes one copy of it out of the multiset. */
  lemma RemoveOneMultiset<T>(s: seq<T>, k: nat)
    requires k < |s|
    ensures multiset(s[..k] + s[k + 1..]) == multiset(s) - multiset{s[k]}
  {
    assert s == s[..k] + [s[k]] + s[k + 1..];
    assert multiset(s) == multiset(s[..k]) + multiset{s[k]} + multiset(s[k + 1..]);
  }

  /** Removing the element at k loses one segment outside the tree exactly when that element lies outside it. */
  lemma OutsideRemoveOne(s: seq<LineSegment>, k: nat, tree: seq<LineSegment>)
    requires k < |s|
    ensures |Outside(s, tree)| == |Outside(s[..k] + s[k + 1..], tree)| + if s[k] in tree then 0 else 1
  {
    var x := s[k];
    assert s == s[..k] + [x] + s[k + 1..];
    OutsideAppend(s[..k] + [x], s[k + 1..], tree);
    OutsideAppend(s[..k], [x], tree);
    OutsideAppend(s[..k], s[k + 1..], tree);
    assert [x][..0] == [];
  }

  /** Only membership in the tree matters. */
  lemma {:induction false} OutsideSameMembers(tri: seq<LineSegment>, t1: seq<LineSegment>, t2: seq<LineSegment>)
    requires forall e :: e in t1 <==> e in t2
    ensures Outside(tri, t1) == Outside(tri, t2)
    decreases |tri|
  {
    if tri != [] {
      OutsideSameMembers(tri[..|tri| - 1], t1, t2);
    }
  }

  /**
   * The edges added back: amount of them when at least that many
   * triangulation segments lie outside the tree, all of those otherwise
   * (none for a non-positive amount); each is a triangulation segment
   * outside the tree. The shuffles change which ones, not how many.
   */
  lemma {:induction false} AddedBackEdges(tri: seq<LineSegment>, tree: seq<LineSegment>,
                       shuffledTri: seq<LineSegment>, shuffledTree: seq<LineSegment>, amount: int)
    requires multiset(shuffledTri) == multiset(tri) && multiset(shuffledTree) == multiset(tree)
    ensures var added := Take(Outside(shuffledTri, shuffledTree), amount);
            |added| == (if amount <= 0 then 0
                        else if amount < |Outside(tri, tree)| then amount
                        else |Outside(tri, tree)|) &&
            (forall e :: e in added ==> e in tri && e !in tree) &&
            (amount >= |Outside(tri, tree)| ==> forall e :: e in tri && e !in tree ==> e in added)
  {
    forall e
      ensures e in tree <==> e in shuffledTree
    {
      assert e in tree <==> e in multiset(tree);
      assert e in shuffledTree <==> e in multiset(shuffledTree);
    }
    OutsideSameMembers(tri, shuffledTree, tree);
    OutsideSizeOfPermutation(shuffledTri, tri, shuffledTree);
    OutsideMembers(shuffledTri, shuffledTree);
    var added := Take(Outside(shuffledTri, shuffledTree), amount);
    PrefixMembers(added, Outside(shuffledTri, shuffledTree));
    forall e | e in added
      ensures e in tri && e !in tree
    {
      assert e in multiset(shuffledTri);
    }
    if amount >= |Outside(tri, tree)| {
      forall e | e in tri && e !in tree
        ensures e in added
      {
        assert e in multiset(tri);
      }
    }
  }

  // ---------------------------------------------------------------------
  // Halls
  // ---------------------------------------------------------------------

  /**
   * The rectangles of the two rooms CreateHalls records for segment l (the
   * zero rectangle stands in for a missing room, which the source would
   * dereference and fail on).
   */
  function Ends(rooms: seq<Room>, l: LineSegment): (Rect, Rect)
    reads rooms
  {
    var e := Resolve(rooms, l);
    (if e.0 == null then ZeroRect else e.0.rect, if e.1 == null then ZeroRect else e.1.rect)
  }

  /** Ends for every segment of the tree, in order. */
  function EndRects(rooms: seq<Room>, tree: seq<LineSegment>): (es: seq<(Rect, Rect)>)
    reads rooms
    ensures |es| == |tree|
    decreases |tree|
  {
    if tree == [] then []
    else EndRects(rooms, tree[..|tree| - 1]) + [Ends(rooms, tree[|tree| - 1])]
  }

  /** EndRects lists Ends segment by segment, and a prefix of the tree gives a prefix of the list. */
  lemma {:induction false} EndRectsPrefix(rooms: seq<Room>, tree: seq<LineSegment>, k: nat)
    requires k < |tree|
    ensures EndRects(rooms, tree)[k] == Ends(rooms, tree[k])
    ensures EndRects(rooms, tree[..k]) == EndRects(rooms, tree)[..k]
    decreases |tree|
  {
    var n := |tree| - 1;
    if k < n {
      EndRectsPrefix(rooms, tree[..n], k);
      assert tree[..n][..k] == tree[..k];
    } else {
      assert tree[..n] == tree[..k];
    }
  }

  /**
   * The hall rectangles CreateHalls builds from the end rooms' rectangles,
   * segment by segment.
   */
  function HallsFor(ends: seq<(Rect, Rect)>, t: int): (hs: seq<Rect>)
    decreases |ends|
  {
    if ends == [] then []
    else
      var e := ends[|ends| - 1];
      HallsFor(ends[..|ends| - 1], t) + Halls.HallsBetween(e.0, e.1, t)
  }

  /** The halls CreateHalls builds for the tree over the main rooms. */
  function HallsOf(rooms: seq<Room>, tree: seq<LineSegment>, t: int): seq<Rect>
    reads rooms
  {
    HallsFor(EndRects(rooms, tree), t)
  }

  /**
   * What the second loop of CreateHalls produces for the tree: whether every
   * edge had both of its rooms, and the hall rectangles built, edge by edge,
   * before the first edge with a missing room.
   */
  function PlannedHalls(rooms: seq<Room>, tree: seq<LineSegment>, t: int): (p: (bool, seq<Rect>))
    reads rooms
    decreases |tree|
  {
    if tree == [] then (true, [])
    else
      var p := PlannedHalls(rooms, tree[..|tree| - 1], t);
      var e := Resolve(rooms, tree[|tree| - 1]);
      if !p.0 || e.0 == null || e.1 == null then (false, p.1)
      else (true, p.1 + Halls.HallsBetween(e.0.rect, e.1.rect, t))
  }

  /** Once an edge with a missing room is met, later edges change nothing. */
  lemma {:induction false} PlannedHallsStop(rooms: seq<Room>, tree: seq<LineSegment>, t: int, k: nat)
    requires k <= |tree| && !PlannedHalls(rooms, tree[..k], t).0
    ensures PlannedHalls(rooms, tree, t) == PlannedHalls(rooms, tree[..k], t)
    decreases |tree|
  {
    if k < |tree| {
      var n := |tree| - 1;
      var prefix := tree[..n];
      assert prefix[..k] == tree[..k];
      PlannedHallsStop(rooms, prefix, t, k);
      PlannedHallsStopStep(rooms, tree, prefix, t);
    } else {
      assert tree[..k] == tree;
    }
  }

  /** A stopped loop stays stopped through one more edge, adding nothing. */
  lemma PlannedHallsStopStep(rooms: seq<Room>, tree: seq<LineSegment>, prefix: seq<LineSegment>, t: int)
    requires tree != [] && prefix == tree[..|tree| - 1] && !PlannedHalls(rooms, prefix, t).0
    ensures PlannedHalls(rooms, tree, t) == PlannedHalls(rooms, prefix, t)
  {
  }

  /** A tree is all resolved when the tree without its last edge is and the last edge's rooms both exist. */
  lemma AllResolvedLast(rooms: seq<Room>, tree: seq<LineSegment>)
    requires tree != []
    ensures var n := |tree| - 1;
            AllResolved(rooms, tree) <==>
            AllResolved(rooms, tree[..n]) && Resolve(rooms, tree[n]).0 != null && Resolve(rooms, tree[n]).1 != null
  {
    var n := |tree| - 1;
    assert forall j :: 0 <= j < n ==> tree[..n][j] == tree[j];
  }

  /** The loop completes exactly when every edge has both of its rooms. */
  lemma {:induction false} PlannedHallsCompletes(rooms: seq<Room>, tree: seq<LineSegment>, t: int)
    ensures PlannedHalls(rooms, tree, t).0 <==> AllResolved(rooms, tree)
    decreases |tree|
  {
    if tree != [] {
      PlannedHallsCompletes(rooms, tree[..|tree| - 1], t);
      AllResolvedLast(rooms, tree);
    }
  }

  /** A completed loop has built HallsOf the whole tree. */
  lemma {:induction false} PlannedHallsBuilt(rooms: seq<Room>, tree: seq<LineSegment>, t: int)
    ensures PlannedHalls(rooms, tree, t).0 ==> PlannedHalls(rooms, tree, t).1 == HallsOf(rooms, tree, t)
    decreases |tree|
  {
    if tree != [] {
      var n := |tree| - 1;
      PlannedHallsBuilt(rooms, tree[..n], t);
      var e := Resolve(rooms, tree[n]);
      if PlannedHalls(rooms, tree[..n], t).0 && e.0 != null && e.1 != null {
        var es := EndRects(rooms, tree);
        assert es[..n] == EndRects(rooms, tree[..n]);
        assert es[n] == (e.0.rect, e.1.rect);
      }
    }
  }

  /**
   * The hall loop stopped at edge k having built hs: every edge before k has
   * both rooms, edge k misses one, and hs are the halls of the edges before k.
   */
  predicate StoppedAt(rooms: seq<Room>, tree: seq<LineSegment>, t: int, hs: seq<Rect>, k: int)
    reads rooms
  {
    0 <= k < |tree| && AllResolved(rooms, tree[..k]) &&
    (Resolve(rooms, tree[k]).0 == null || Resolve(rooms, tree[k]).1 == null) &&
    hs == HallsOf(rooms, tree[..k], t)
  }

  /** A loop that did not complete stopped at some edge. */
  lemma {:induction false} PlannedHallsStopped(rooms: seq<Room>, tree: seq<LineSegment>, t: int)
    ensures var p := PlannedHalls(rooms, tree, t);
            !p.0 ==> exists k :: StoppedAt(rooms, tree, t, p.1, k)
    decreases |tree|
  {
    if tree != [] {
      var n := |tree| - 1;
      var prefix := tree[..n];
      var q := PlannedHalls(rooms, prefix, t);
      var e := Resolve(rooms, tree[n]);
      if q.0 {
        if e.0 == null || e.1 == null {
          PlannedHallsCompletes(rooms, prefix, t);
          PlannedHallsBuilt(rooms, prefix, t);
          assert StoppedAt(rooms, tree, t, q.1, n);
        }
      } else {
        PlannedHallsStopped(rooms, prefix, t);
        var k :| StoppedAt(rooms, prefix, t, q.1, k);
        assert prefix[..k] == tree[..k] && prefix[k] == tree[k];
        assert StoppedAt(rooms, tree, t, q.1, k);
      }
    }
  }

  /** Whether the tree resolves, and its halls, depend only on the main rooms' rectangles. */
  twostate lemma HallsUnchanged(rooms: seq<Room>, new tree: seq<LineSegment>, new t: int)
    requires unchanged(rooms) && old(allocated(tree))
    ensures old(AllResolved(rooms, tree)) == AllResolved(rooms, tree)
    ensures old(HallsOf(rooms, tree, t)) == HallsOf(rooms, tree, t)
    ensures old(PlannedHalls(rooms, tree, t)) == PlannedHalls(rooms, tree, t)
  {
  }

  /** Rooms whose fields did not change keep their rectangles. */
  twostate lemma RectsUnchanged(rooms: seq<Room>)
    requires unchanged(rooms)
    ensures old(Rects(rooms)) == Rects(rooms)
  {
  }

  /** A hall rectangle hallTickness thick in one direction. */
  predicate Thick(h: Rect, t: int) {
    h.height == t as real || h.width == t as real
  }

  /** Each segment gives one or two halls, and every hall is hallTickness thick in one direction. */
  lemma {:induction false} HallsForShape(ends: seq<(Rect, Rect)>, t: int)
    ensures var hs := HallsFor(ends, t);
            |ends| <= |hs| <= 2 * |ends| &&
            forall h :: h in hs ==> Thick(h, t)
    decreases |ends|
  {
    if ends != [] {
      var n := |ends| - 1;
      HallsForShape(ends[..n], t);
      var hs := Halls.HallsBetween(ends[n].0, ends[n].1, t);
      assert forall h :: h in hs ==> Thick(h, t);
    }
  }

  // ---------------------------------------------------------------------
  // Secondary rooms
  // ---------------------------------------------------------------------

  /**
   * The inner loop of ReAddSecundaryRooms for hall h: every room, not a main
   * room and not collected yet, that overlaps h is appended to acc.
   */
  function CollectForHall(h: Room, rooms: seq<Room>, main: seq<Room>, acc: seq<Room>): (r: seq<Room>)
    reads h, rooms
    decreases |rooms|
  {
    if rooms == [] then acc
    else
      var y := rooms[0];
      var acc' := if y !in main && y !in acc && h.Overlaps(y) then acc + [y] else acc;
      CollectForHall(h, rooms[1..], main, acc')
  }

  /** One step of the scan, at position b of the list. */
  lemma CollectForHallStep(h: Room, rooms: seq<Room>, b: nat, main: seq<Room>, acc: seq<Room>)
    requires b < |rooms|
    ensures CollectForHall(h, rooms[b..], main, acc) ==
            CollectForHall(h, rooms[b + 1..], main,
                           if rooms[b] !in main && rooms[b] !in acc && h.Overlaps(rooms[b]) then acc + [rooms[b]] else acc)
  {
    assert rooms[b..][1..] == rooms[b + 1..];
  }

  /** The scan over no rooms collects nothing more. */
  lemma CollectForHallEnd(h: Room, main: seq<Room>, acc: seq<Room>)
    ensures CollectForHall(h, [], main, acc) == acc
  {
  }

  /**
   * Scanning for one hall keeps what was collected and adds exactly the
   * rooms that are not main rooms and overlap the hall, none twice.
   */
  lemma {:induction false} CollectForHallFacts(h: Room, rooms: seq<Room>, main: seq<Room>, acc: seq<Room>)
    ensures var r := CollectForHall(h, rooms, main, acc);
            (forall y :: y in acc ==> y in r) &&
            (forall y :: y in r ==> y in acc || (y in rooms && y !in main && h.Overlaps(y))) &&
            (forall y :: y in rooms && y !in main && h.Overlaps(y) ==> y in r) &&
            (Distinct(acc) ==> Distinct(r))
    decreases |rooms|
  {
    if rooms != [] {
      var y := rooms[0];
      assert rooms == [y] + rooms[1..];
      var acc' := if y !in main && y !in acc && h.Overlaps(y) then acc + [y] else acc;
      CollectForHallFacts(h, rooms[1..], main, acc');
    }
  }

  /** ReAddSecundaryRooms: the inner loop for each hall in turn. */
  function CollectAll(halls: seq<Room>, rooms: seq<Room>, main: seq<Room>, acc: seq<Room>): (r: seq<Room>)
    reads halls, rooms
    decreases |halls|
  {
    if halls == [] then acc
    else CollectAll(halls[1..], rooms, main, CollectForHall(halls[0], rooms, main, acc))
  }

  /** One hall of ReAddSecundaryRooms' outer loop, at position a of the halls. */
  lemma CollectAllStep(halls: seq<Room>, a: nat, rooms: seq<Room>, main: seq<Room>, acc: seq<Room>)
    requires a < |halls|
    ensures CollectAll(halls[a..], rooms, main, acc) == CollectAll(halls[a + 1..], rooms, main, CollectForHall(halls[a], rooms, main, acc))
  {
    assert halls[a..][1..] == halls[a + 1..];
  }

  /**
   * Collecting over all halls keeps what was collected and adds exactly the
   * rooms that are not main rooms and overlap some hall, none twice.
   */
  lemma {:induction false} CollectAllFacts(halls: seq<Room>, rooms: seq<Room>, main: seq<Room>, acc: seq<Room>)
    ensures var r := CollectAll(halls, rooms, main, acc);
            (forall y :: y in acc ==> y in r) &&
            (forall y :: y in r ==> y in acc || (y in rooms && y !in main && exists h :: h in halls && h.Overlaps(y))) &&
            (forall y, h :: y in rooms && y !in main && h in halls && h.Overlaps(y) ==> y in r) &&
            (Distinct(acc) ==> Distinct(r))
    decreases |halls|
  {
    if halls != [] {
      assert halls == [halls[0]] + halls[1..];
      CollectForHallFacts(halls[0], rooms, main, acc);
      CollectAllFacts(halls[1..], rooms, main, CollectForHall(halls[0], rooms, main, acc));
    }
  }

  /**
   * The secondary rooms: exactly the rooms of the list that are not main
   * rooms and overlap some hall, each once.
   */
  lemma {:induction false} SecondaryRooms(halls: seq<Room>, rooms: seq<Room>, main: seq<Room>)
    ensures var s := CollectAll(halls, rooms, main, []);
            Distinct(s) &&
            forall y :: y in s <==> y in rooms && y !in main && exists h :: h in halls && h.Overlaps(y)
  {
    CollectAllFacts(halls, rooms, main, []);
  }
}
