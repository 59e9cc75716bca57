/** The geometry of the floor-plan editor (components/FloorPlanDesigner.tsx):
    point-to-segment distance, the vertex, edge and hotspot hit tests and the
    Shift-drag snapping rule. Coordinates are exact reals; `Math.hypot(..) < r`
    is compared as a squared distance against `r * r`. */
module FloorPlanGeometry {
  import opened Types
  import opened ArrayOps

  /** A vertex is hit within this distance. */
  const VertexRadius: real := 15.0
  /** An edge is hit within this distance. */
  const EdgeRadius: real := 10.0
  /** A hotspot is hit within this distance by press, hover and drag. */
  const HotspotDragRadius: real := 20.0
  /** A hotspot is hit within this distance by a read-only click. */
  const HotspotClickRadius: real := 25.0
  /** Shift-drag snaps an axis to a vertex closer than this on that axis. */
  const SnapThreshold: real := 15.0

  function Sq(a: real): real { a * a }

  function Abs(a: real): real { if a < 0.0 then -a else a }

  function Max(a: real, b: real): real { if a < b then b else a }

  function Min(a: real, b: real): real { if a < b then a else b }

  /** Squared Euclidean distance between (ax, ay) and (qx, qy). */
  function DistSq(ax: real, ay: real, qx: real, qy: real): real {
    Sq(ax - qx) + Sq(ay - qy)
  }

  /** `Math.hypot(p.x - x, p.y - y) < r`. */
  predicate Within(p: Point, x: real, y: real, r: real) {
    DistSq(p.x, p.y, x, y) < r * r
  }

  // ---------------------------------------------------------------------------
  // Point-to-segment distance
  // ---------------------------------------------------------------------------

  /** What `getDistToSegment` returns: the (squared) distance and the nearest point. */
  datatype SegmentDist = SegmentDist(distSq: real, x: real, y: real)

  /** The point at parameter `t` on the segment from (x1, y1) to (x2, y2). */
  function SegmentPoint(x1: real, y1: real, x2: real, y2: real, t: real): Point {
    Point(x1 + t * (x2 - x1), y1 + t * (y2 - y1))
  }

  /** The parameter of the projection of (px, py) onto the segment's line,
      clamped into [0, 1]: 0 below the range, 1 above it, the projection itself
      inside it; 0 for a zero-length segment. */
  function ClampedParam(px: real, py: real, x1: real, y1: real, x2: real, y2: real): (t: real)
    ensures 0.0 <= t <= 1.0
    ensures Sq(x1 - x2) + Sq(y1 - y2) == 0.0 ==> t == 0.0
    ensures Sq(x1 - x2) + Sq(y1 - y2) != 0.0 &&
            0.0 <= ((px - x1) * (x2 - x1) + (py - y1) * (y2 - y1)) / (Sq(x1 - x2) + Sq(y1 - y2)) <= 1.0 ==>
            t == ((px - x1) * (x2 - x1) + (py - y1) * (y2 - y1)) / (Sq(x1 - x2) + Sq(y1 - y2))
    ensures Sq(x1 - x2) + Sq(y1 - y2) != 0.0 &&
            ((px - x1) * (x2 - x1) + (py - y1) * (y2 - y1)) / (Sq(x1 - x2) + Sq(y1 - y2)) < 0.0 ==>
            t == 0.0
    ensures Sq(x1 - x2) + Sq(y1 - y2) != 0.0 &&
            ((px - x1) * (x2 - x1) + (py - y1) * (y2 - y1)) / (Sq(x1 - x2) + Sq(y1 - y2)) > 1.0 ==>
            t == 1.0
  {
    var l2 := Sq(x1 - x2) + Sq(y1 - y2);
    if l2 == 0.0 then 0.0
    else Max(0.0, Min(1.0, ((px - x1) * (x2 - x1) + (py - y1) * (y2 - y1)) / l2))
  }

  /** `getDistToSegment(px, py, x1, y1, x2, y2)`: project onto the segment's line,
      clamp the parameter into [0, 1]; a zero-length segment answers its start. */
  function DistToSegment(px: real, py: real, x1: real, y1: real, x2: real, y2: real): (r: SegmentDist)
    ensures r.distSq == DistSq(px, py, r.x, r.y)
    ensures Sq(x1 - x2) + Sq(y1 - y2) == 0.0 ==> r.x == x1 && r.y == y1
  {
    var l2 := Sq(x1 - x2) + Sq(y1 - y2);
    if l2 == 0.0 then
      SegmentDist(DistSq(px, py, x1, y1), x1, y1)
    else
      var t := ClampedParam(px, py, x1, y1, x2, y2);
      var nearestX := x1 + t * (x2 - x1);
      var nearestY := y1 + t * (y2 - y1);
      SegmentDist(DistSq(px, py, nearestX, nearestY), nearestX, nearestY)
  }

  /** The nearest point lies on the segment: it is p1 + t (p2 - p1) for the
      clamped parameter t in [0, 1]. */
  lemma NearestLiesOnSegment(px: real, py: real, x1: real, y1: real, x2: real, y2: real)
    ensures var r := DistToSegment(px, py, x1, y1, x2, y2);
      exists t :: 0.0 <= t <= 1.0 && SegmentPoint(x1, y1, x2, y2, t) == Point(r.x, r.y)
  {
    var t := ClampedParam(px, py, x1, y1, x2, y2);
    var r := DistToSegment(px, py, x1, y1, x2, y2);
    if Sq(x1 - x2) + Sq(y1 - y2) == 0.0 {
      SquaresVanish(x1 - x2, y1 - y2);
      assert SegmentPoint(x1, y1, x2, y2, t) == Point(r.x, r.y);
    } else {
      assert SegmentPoint(x1, y1, x2, y2, t) == Point(r.x, r.y);
    }
  }

  /** The nearest point really is nearest: no point of the segment is closer to (px, py). */
  lemma NearestIsClosest(px: real, py: real, x1: real, y1: real, x2: real, y2: real, s: real)
    requires 0.0 <= s <= 1.0
    ensures var q := SegmentPoint(x1, y1, x2, y2, s);
      DistToSegment(px, py, x1, y1, x2, y2).distSq <= DistSq(px, py, q.x, q.y)
  {
    if Sq(x1 - x2) + Sq(y1 - y2) == 0.0 {
      SquaresVanish(x1 - x2, y1 - y2);
      assert SegmentPoint(x1, y1, x2, y2, s) == Point(x1, y1);
    } else {
      ProperSegmentNearest(px, py, x1, y1, x2, y2, s, ClampedParam(px, py, x1, y1, x2, y2));
    }
  }

  lemma ProperSegmentNearest(px: real, py: real, x1: real, y1: real, x2: real, y2: real, s: real, t: real)
    requires 0.0 <= s <= 1.0
    requires Sq(x1 - x2) + Sq(y1 - y2) != 0.0
    requires t == Max(0.0, Min(1.0, ((px - x1) * (x2 - x1) + (py - y1) * (y2 - y1)) / (Sq(x1 - x2) + Sq(y1 - y2))))
    ensures DistSq(px, py, x1 + t * (x2 - x1), y1 + t * (y2 - y1))
         <= DistSq(px, py, x1 + s * (x2 - x1), y1 + s * (y2 - y1))
  {
    MinimumCondition(px, py, x1, y1, x2, y2, s, t);
    QuadraticMinimum(px - x1, py - y1, x2 - x1, y2 - y1, s, t);
    DistAtParam(px, py, x1, y1, x2, y2, t);
    DistAtParam(px, py, x1, y1, x2, y2, s);
  }

  /** The clamped parameter satisfies the first-order condition of a minimum
      over [0, 1] of the squared distance along the segment. */
  lemma MinimumCondition(px: real, py: real, x1: real, y1: real, x2: real, y2: real, s: real, t: real)
    requires 0.0 <= s <= 1.0
    requires Sq(x1 - x2) + Sq(y1 - y2) != 0.0
    requires t == Max(0.0, Min(1.0, ((px - x1) * (x2 - x1) + (py - y1) * (y2 - y1)) / (Sq(x1 - x2) + Sq(y1 - y2))))
    ensures MinCond(px - x1, py - y1, x2 - x1, y2 - y1, s, t) >= 0.0
  {
    var l2 := Sq(x1 - x2) + Sq(y1 - y2);
    SquaredLength(x2 - x1, y2 - y1, l2);
    SquareNonNeg(x1 - x2);
    SquareNonNeg(y1 - y2);
    ClampedIsMinimum(l2, (px - x1) * (x2 - x1) + (py - y1) * (y2 - y1), s, t);
  }

  lemma DistAtParam(px: real, py: real, x1: real, y1: real, x2: real, y2: real, u: real)
    ensures DistSq(px, py, x1 + u * (x2 - x1), y1 + u * (y2 - y1)) == Along(px - x1, py - y1, x2 - x1, y2 - y1, u)
  {
    assert px - (x1 + u * (x2 - x1)) == (px - x1) - u * (x2 - x1);
    assert py - (y1 + u * (y2 - y1)) == (py - y1) - u * (y2 - y1);
  }

  lemma SquaredLength(dx: real, dy: real, l2: real)
    requires l2 == Sq(-dx) + Sq(-dy) || l2 == Sq(dx) + Sq(dy)
    ensures l2 == dx * dx + dy * dy
  {
  }

  lemma SquareNonNeg(a: real)
    ensures Sq(a) >= 0.0
  {
  }

  lemma SquarePositive(a: real)
    requires a != 0.0
    ensures Sq(a) > 0.0
  {
    if a > 0.0 {
      calc { Sq(a); a * a; > { PositiveProduct(a, a); } 0.0; }
    } else {
      calc { Sq(a); (-a) * (-a); > { PositiveProduct(-a, -a); } 0.0; }
    }
  }

  /** A segment has positive squared length unless both of its extents are zero. */
  lemma LengthZeroOrPositive(a: real, b: real)
    ensures Sq(a) + Sq(b) > 0.0 || (a == 0.0 && b == 0.0)
  {
    if a != 0.0 {
      SquarePositive(a);
      SquareNonNeg(b);
    } else if b != 0.0 {
      SquarePositive(b);
      SquareNonNeg(a);
    }
  }

  lemma SquaresVanish(a: real, b: real)
    requires Sq(a) + Sq(b) == 0.0
    ensures a == 0.0 && b == 0.0
  {
    LengthZeroOrPositive(a, b);
  }

  lemma PositiveProduct(a: real, b: real)
    requires a > 0.0 && b > 0.0
    ensures a * b > 0.0
  {
  }

  /** The squared distance from w to u d, along the line through 0 with direction d. */
  function Along(wx: real, wy: real, dx: real, dy: real, u: real): real {
    Sq(wx - u * dx) + Sq(wy - u * dy)
  }

  /** (s - t)((s + t)|d|^2 - 2 w.d), which is f(s) - f(t) for f(u) = |w - u d|^2 - |w|^2. */
  function MinCond(wx: real, wy: real, dx: real, dy: real, s: real, t: real): real {
    (s - t) * ((s + t) * (dx * dx + dy * dy) - 2.0 * (wx * dx + wy * dy))
  }

  /** With f(u) = |w - u d|^2 and MinCond >= 0, f(t) <= f(s). */
  lemma QuadraticMinimum(wx: real, wy: real, dx: real, dy: real, s: real, t: real)
    requires MinCond(wx, wy, dx, dy, s, t) >= 0.0
    ensures Along(wx, wy, dx, dy, t) <= Along(wx, wy, dx, dy, s)
  {
    var dot := wx * dx + wy * dy;
    Expand(wx, wy, dx, dy, t);
    Expand(wx, wy, dx, dy, s);
    Difference(dx * dx + dy * dy, dot, s, t);
  }

  /** |w - s d|^2 = |w|^2 - 2 s (w . d) + s^2 |d|^2 */
  lemma Expand(wx: real, wy: real, dx: real, dy: real, s: real)
    ensures Sq(wx - s * dx) + Sq(wy - s * dy)
      == (wx * wx + wy * wy) - 2.0 * s * (wx * dx + wy * dy) + s * s * (dx * dx + dy * dy)
  {
  }

  /** f(s) - f(t) for f(u) = -2 u dot + u^2 l2. */
  lemma Difference(l2: real, dot: real, s: real, t: real)
    ensures (-2.0 * s * dot + s * s * l2) - (-2.0 * t * dot + t * t * l2)
      == (s - t) * ((s + t) * l2 - 2.0 * dot)
  {
  }

  /** The clamped minimiser of the quadratic is no worse than any s in [0, 1]. */
  lemma ClampedIsMinimum(l2: real, dot: real, s: real, t: real)
    requires l2 > 0.0 && 0.0 <= s <= 1.0
    requires t == Max(0.0, Min(1.0, dot / l2))
    ensures (s - t) * ((s + t) * l2 - 2.0 * dot) >= 0.0
  {
    var t0 := dot / l2;
    assert dot == t0 * l2;
    if t0 < 0.0 {
      assert t == 0.0;
      assert s * l2 - 2.0 * dot >= 0.0;
      NonNegProduct(s, s * l2 - 2.0 * dot);
    } else if t0 > 1.0 {
      assert t == 1.0;
      assert dot > l2;
      assert (s + 1.0) * l2 - 2.0 * dot <= 0.0;
      NonPosProduct(s - 1.0, (s + 1.0) * l2 - 2.0 * dot);
    } else {
      assert t == t0;
      assert (s + t) * l2 - 2.0 * dot == (s - t) * l2;
      NonNegProduct((s - t) * (s - t), l2);
      assert (s - t) * ((s - t) * l2) == (s - t) * (s - t) * l2;
    }
  }

  lemma NonNegProduct(a: real, b: real)
    requires a >= 0.0 && b >= 0.0
    ensures a * b >= 0.0
  {
  }

  lemma NonPosProduct(a: real, b: real)
    requires a <= 0.0 && b <= 0.0
    ensures a * b >= 0.0
  {
  }

  // ---------------------------------------------------------------------------
  // Hit tests
  // ---------------------------------------------------------------------------

  /** `points.findIndex(p => Math.hypot(p.x - x, p.y - y) < 15)`. */
  function VertexHit(points: seq<Point>, x: real, y: real): (r: Option<nat>)
    ensures r.Some? ==> r.value < |points| && Within(points[r.value], x, y, VertexRadius)
    ensures r.Some? ==> forall j :: 0 <= j < r.value ==> !Within(points[j], x, y, VertexRadius)
    ensures r.None? <==> forall j :: 0 <= j < |points| ==> !Within(points[j], x, y, VertexRadius)
  {
    FindIndex(points, (p: Point) => Within(p, x, y, VertexRadius))
  }

  /** `hotspots.findIndex(h => Math.hypot(h.position.x - x, h.position.y - y) < radius)`. */
  function HotspotHit(hotspots: seq<Hotspot>, x: real, y: real, radius: real): (r: Option<nat>)
    ensures r.Some? ==> r.value < |hotspots| && Within(hotspots[r.value].position, x, y, radius)
    ensures r.Some? ==> forall j :: 0 <= j < r.value ==> !Within(hotspots[j].position, x, y, radius)
    ensures r.None? <==> forall j :: 0 <= j < |hotspots| ==> !Within(hotspots[j].position, x, y, radius)
  {
    FindIndex(hotspots, (h: Hotspot) => Within(h.position, x, y, radius))
  }

  /** The hovered edge recorded by a pointer move: its start index and nearest point. */
  datatype EdgeHit = EdgeHit(index: nat, x: real, y: real)

  /** Edge `i` runs from vertex `i` to vertex `(i + 1) % n`; the closing edge
      (the one ending at vertex 0) is skipped when there are at most two points. */
  predicate EdgeTested(n: nat, i: nat)
    requires n > 0
  {
    (i + 1) % n != 0 || n > 2
  }

  /** `getDistToSegment` against edge `i`. */
  function EdgeDist(points: seq<Point>, i: nat, x: real, y: real): SegmentDist
    requires i < |points|
  {
    var p1 := points[i];
    var p2 := points[(i + 1) % |points|];
    DistToSegment(x, y, p1.x, p1.y, p2.x, p2.y)
  }

  /** Edge `i` is tested and the pointer is within 10 of it. */
  predicate EdgeHitAt(points: seq<Point>, x: real, y: real, i: nat)
    requires i < |points|
  {
    EdgeTested(|points|, i) && EdgeDist(points, i, x, y).distSq < EdgeRadius * EdgeRadius
  }

  /** `found` is what the edge search of a pointer move must report: the first
      edge in index order that is hit, with its nearest point, or `None` when no
      edge is hit. */
  predicate IsFirstEdgeHit(points: seq<Point>, x: real, y: real, found: Option<EdgeHit>) {
    match found
    case None => forall j :: 0 <= j < |points| ==> !EdgeHitAt(points, x, y, j)
    case Some(e) =>
      e.index < |points| && EdgeHitAt(points, x, y, e.index) &&
      EdgeDist(points, e.index, x, y).x == e.x && EdgeDist(points, e.index, x, y).y == e.y &&
      forall j :: 0 <= j < e.index ==> !EdgeHitAt(points, x, y, j)
  }

  /** The edge-search loop of a pointer move: skip the closing edge of a polygon
      with at most two points, stop at the first edge within 10. */
  method FindEdge(points: seq<Point>, x: real, y: real) returns (found: Option<EdgeHit>)
    ensures IsFirstEdgeHit(points, x, y, found)
  {
    found := None;
    var i := 0;
    while i < |points|
      invariant 0 <= i <= |points|
      invariant forall j :: 0 <= j < i ==> !EdgeHitAt(points, x, y, j)
    {
      var nextIdx := (i + 1) % |points|;
      if nextIdx == 0 && |points| <= 2 {
        i := i + 1;
        continue;
      }
      var p1 := points[i];
      var p2 := points[nextIdx];
      var result := DistToSegment(x, y, p1.x, p1.y, p2.x, p2.y);
      if result.distSq < EdgeRadius * EdgeRadius {
        found := Some(EdgeHit(i, result.x, result.y));
        break;
      }
      i := i + 1;
    }
  }

  /** The edge search has exactly one correct answer. */
  lemma FirstEdgeHitUnique(points: seq<Point>, x: real, y: real, a: Option<EdgeHit>, b: Option<EdgeHit>)
    requires IsFirstEdgeHit(points, x, y, a) && IsFirstEdgeHit(points, x, y, b)
    ensures a == b
  {
  }

  /** With at most two points the closing edge is never reported. */
  lemma ClosingEdgeSkipped(points: seq<Point>, x: real, y: real)
    requires 0 < |points| <= 2
    ensures !EdgeHitAt(points, x, y, |points| - 1)
  {
  }

  // ---------------------------------------------------------------------------
  // Shift-drag snapping
  // ---------------------------------------------------------------------------

  /** The x (onX) or y coordinate of a point. */
  function Coord(p: Point, onX: bool): real {
    if onX then p.x else p.y
  }

  /** Vertex `j`, not the dragged vertex `k`, lies within the snap threshold of `v` on the axis. */
  predicate SnapCandidate(points: seq<Point>, k: nat, v: real, onX: bool, j: nat)
    requires j < |points|
  {
    j != k && Abs(v - Coord(points[j], onX)) < SnapThreshold
  }

  /** The snapped coordinate after the `forEach` has visited the first `n` vertices:
      every candidate overwrites the previous value, so the last one wins. */
  function SnapAxis(points: seq<Point>, k: nat, v: real, onX: bool, n: nat): (r: real)
    requires n <= |points|
    ensures r == v || exists j :: 0 <= j < n && SnapCandidate(points, k, v, onX, j) && r == Coord(points[j], onX)
  {
    if n == 0 then v
    else if SnapCandidate(points, k, v, onX, n - 1) then Coord(points[n - 1], onX)
    else SnapAxis(points, k, v, onX, n - 1)
  }

  /** SnapAxis keeps the raw coordinate when no vertex is near on that axis. */
  lemma {:induction false} SnapAxisWithoutCandidate(points: seq<Point>, k: nat, v: real, onX: bool, n: nat)
    requires n <= |points|
    requires forall j :: 0 <= j < n ==> !SnapCandidate(points, k, v, onX, j)
    ensures SnapAxis(points, k, v, onX, n) == v
  {
    if n > 0 {
      SnapAxisWithoutCandidate(points, k, v, onX, n - 1);
    }
  }

  /** SnapAxis takes the coordinate of the LAST near vertex in index order. */
  lemma {:induction false} SnapAxisIsLastCandidate(points: seq<Point>, k: nat, v: real, onX: bool, n: nat, j: nat)
    requires j < n <= |points|
    requires SnapCandidate(points, k, v, onX, j)
    requires forall i :: j < i < n ==> !SnapCandidate(points, k, v, onX, i)
    ensures SnapAxis(points, k, v, onX, n) == Coord(points[j], onX)
  {
    if j < n - 1 {
      SnapAxisIsLastCandidate(points, k, v, onX, n - 1, j);
    }
  }

  /** The index of the vertex before `k` in polygon order, `(k - 1 + n) % n`. */
  function PrevIndex(k: nat, n: nat): (r: nat)
    requires n > 0
    ensures r < n
  {
    (k - 1 + n) % n
  }

  /** Where a Shift-drag places the dragged vertex `k` for the raw pointer (x, y).
      Each coordinate is the pointer's own or a vertex's, and the result always
      lines up with some vertex on at least one axis. */
  function ShiftSnap(points: seq<Point>, k: nat, x: real, y: real): (r: Point)
    requires |points| > 0
    ensures r.x == x || exists j :: 0 <= j < |points| && r.x == points[j].x
    ensures r.y == y || exists j :: 0 <= j < |points| && r.y == points[j].y
    ensures exists j :: 0 <= j < |points| && (r.x == points[j].x || r.y == points[j].y)
  {
    var snapX := SnapAxis(points, k, x, true, |points|);
    var snapY := SnapAxis(points, k, y, false, |points|);
    if snapX == x && snapY == y then
      var prev := points[PrevIndex(k, |points|)];
      if Abs(x - prev.x) > Abs(y - prev.y) then Point(x, prev.y) else Point(prev.x, y)
    else
      Point(snapX, snapY)
  }

  /** With no vertex near on either axis, the dragged vertex is locked to the
      previous vertex: it keeps x and takes the previous y when the horizontal
      offset is the larger one, and otherwise keeps y and takes the previous x. */
  lemma ShiftSnapLocksToPrevious(points: seq<Point>, k: nat, x: real, y: real)
    requires |points| > 0
    requires forall j :: 0 <= j < |points| ==> !SnapCandidate(points, k, x, true, j)
    requires forall j :: 0 <= j < |points| ==> !SnapCandidate(points, k, y, false, j)
    ensures var prev := points[PrevIndex(k, |points|)];
      ShiftSnap(points, k, x, y) ==
        if Abs(x - prev.x) > Abs(y - prev.y) then Point(x, prev.y) else Point(prev.x, y)
  {
    SnapAxisWithoutCandidate(points, k, x, true, |points|);
    SnapAxisWithoutCandidate(points, k, y, false, |points|);
  }

  /** When the last vertex near on x has a different x, the result takes that x,
      and its y is the last near vertex's y (or the raw y when none is near). */
  lemma ShiftSnapTakesLastCandidates(points: seq<Point>, k: nat, x: real, y: real, jx: nat)
    requires jx < |points| && SnapCandidate(points, k, x, true, jx)
    requires forall i :: jx < i < |points| ==> !SnapCandidate(points, k, x, true, i)
    requires points[jx].x != x
    ensures ShiftSnap(points, k, x, y).x == points[jx].x
    ensures ShiftSnap(points, k, x, y).y == SnapAxis(points, k, y, false, |points|)
    ensures (forall j :: 0 <= j < |points| ==> !SnapCandidate(points, k, y, false, j)) ==>
      ShiftSnap(points, k, x, y).y == y
  {
    SnapAxisIsLastCandidate(points, k, x, true, |points|, jx);
    if forall j :: 0 <= j < |points| ==> !SnapCandidate(points, k, y, false, j) {
      SnapAxisWithoutCandidate(points, k, y, false, |points|);
    }
  }

  /** The mirrored case: when the last vertex near on y has a different y, the
      result takes that y, and its x is the last near vertex's x (or the raw x
      when none is near), so each axis is snapped independently. */
  lemma ShiftSnapTakesLastYCandidate(points: seq<Point>, k: nat, x: real, y: real, jy: nat)
    requires jy < |points| && SnapCandidate(points, k, y, false, jy)
    requires forall i :: jy < i < |points| ==> !SnapCandidate(points, k, y, false, i)
    requires points[jy].y != y
    ensures ShiftSnap(points, k, x, y).y == points[jy].y
    ensures ShiftSnap(points, k, x, y).x == SnapAxis(points, k, x, true, |points|)
    ensures (forall j :: 0 <= j < |points| ==> !SnapCandidate(points, k, x, true, j)) ==>
      ShiftSnap(points, k, x, y).x == x
  {
    SnapAxisIsLastCandidate(points, k, y, false, |points|, jy);
    if forall j :: 0 <= j < |points| ==> !SnapCandidate(points, k, x, true, j) {
      SnapAxisWithoutCandidate(points, k, x, true, |points|);
    }
  }

  /** The `forEach` of a Shift-drag followed by the fallback lock. */
  method SnapPoint(points: seq<Point>, k: nat, x: real, y: real) returns (p: Point)
    requires |points| > 0
    ensures p == ShiftSnap(points, k, x, y)
  {
    var snapX, snapY := x, y;
    var idx := 0;
    while idx < |points|
      invariant 0 <= idx <= |points|
      invariant snapX == SnapAxis(points, k, x, true, idx)
      invariant snapY == SnapAxis(points, k, y, false, idx)
    {
      var q := points[idx];
      if idx != k {
        if Abs(x - q.x) < SnapThreshold { snapX := q.x; }
        if Abs(y - q.y) < SnapThreshold { snapY := q.y; }
      }
      idx := idx + 1;
    }
    var nx, ny := x, y;
    if snapX == x && snapY == y {
      var prevP := points[(k - 1 + |points|) % |points|];
      if Abs(x - prevP.x) > Abs(y - prevP.y) { ny := prevP.y; } else { nx := prevP.x; }
    } else {
      nx, ny := snapX, snapY;
    }
    p := Point(nx, ny);
  }
}
