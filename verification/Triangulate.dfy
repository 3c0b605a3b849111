/**
  * Ear clipping over exact reals: every clip moves area from the ring to the emitted triangles and
  * loses none. Areas are doubled throughout, which spares the halves.
  */
module Triangulate {
  import opened Numbers
  import opened Sequences

  datatype Point = Point(x: real, y: real)

  const EAR_EPS: real := 0.00001
  const INSIDE_EPS: real := 0.0001

  function Minus(a: Point, b: Point): Point {
    Point(a.x - b.x, a.y - b.y)
  }

  function Cross(a: Point, b: Point): real {
    a.x * b.y - a.y * b.x
  }

  function PointInTri(p: Point, a: Point, b: Point, c: Point, winding: real): bool {
    && Cross(Minus(b, a), Minus(p, a)) * winding >= -INSIDE_EPS
    && Cross(Minus(c, b), Minus(p, b)) * winding >= -INSIDE_EPS
    && Cross(Minus(a, c), Minus(p, c)) * winding >= -INSIDE_EPS
  }

  /** Twice the signed area of a triangle. */
  function Area2(a: Point, b: Point, c: Point): real {
    Cross(Minus(b, a), Minus(c, b))
  }

  // ----- Rings of indices -----

  ghost predicate Within(ring: seq<nat>, n: nat) {
    forall i {:trigger ring[i]} :: 0 <= i < |ring| ==> ring[i] < n
  }

  /** Shoelace sum along the first `k + 1` ring points, without the closing edge. */
  ghost function PathSum(pts: seq<Point>, ring: seq<nat>, k: nat): real
    requires Within(ring, |pts|) && k < |ring|
  {
    if k == 0 then 0.0
    else PathSum(pts, ring, k - 1) + Cross(pts[ring[k - 1]], pts[ring[k]])
  }

  /** Twice the signed area the ring encloses. */
  ghost function RingArea2(pts: seq<Point>, ring: seq<nat>): real
    requires Within(ring, |pts|)
  {
    if ring == [] then 0.0
    else PathSum(pts, ring, |ring| - 1) + Cross(pts[ring[|ring| - 1]], pts[ring[0]])
  }

  function Without(ring: seq<nat>, i: nat): seq<nat>
    requires i < |ring|
  {
    ring[..i] + ring[i + 1..]
  }

  function Before(i: nat, n: nat): nat
    requires i < n
  {
    if i == 0 then n - 1 else i - 1
  }

  function After(i: nat, n: nat): nat
    requires i < n
  {
    if i + 1 == n then 0 else i + 1
  }

  lemma {:induction false} CrossOfEdges(a: Point, b: Point, c: Point)
    ensures Area2(a, b, c) == Cross(a, b) + Cross(b, c) - Cross(a, c)
  {
  }

  lemma {:induction false} CrossFlips(a: Point, b: Point)
    ensures Cross(a, b) == -Cross(b, a)
  {
  }

  lemma {:induction false} PathSumAgrees(pts: seq<Point>, ring: seq<nat>, other: seq<nat>, k: nat)
    requires Within(ring, |pts|) && Within(other, |pts|) && k < |ring| && k < |other|
    requires forall j {:trigger other[j]} :: 0 <= j <= k ==> other[j] == ring[j]
    ensures PathSum(pts, other, k) == PathSum(pts, ring, k)
  {
    if k > 0 {
      PathSumAgrees(pts, ring, other, k - 1);
    }
  }

  /** Beyond the removed place the two paths differ by a constant. */
  lemma {:induction false} PathSumShifts(pts: seq<Point>, ring: seq<nat>, i: nat, from: nat, k: nat)
    requires i < |ring| && i <= from <= k < |ring| - 1
    requires Within(ring, |pts|) && Within(Without(ring, i), |pts|)
    ensures PathSum(pts, ring, k + 1) - PathSum(pts, Without(ring, i), k)
         == PathSum(pts, ring, from + 1) - PathSum(pts, Without(ring, i), from)
    decreases k
  {
    if from < k {
      PathSumShifts(pts, ring, i, from, k - 1);
      assert Without(ring, i)[k - 1] == ring[k] && Without(ring, i)[k] == ring[k + 1];
    }
  }

  lemma {:induction false} WithoutStaysWithin(ring: seq<nat>, i: nat, n: nat)
    requires i < |ring| && Within(ring, n)
    ensures Within(Without(ring, i), n)
  {
    forall j | 0 <= j < |ring| - 1
      ensures Without(ring, i)[j] < n
    {
      assert Without(ring, i)[j] == if j < i then ring[j] else ring[j + 1];
    }
  }

  /** The ring's area is its area without corner `i` and that corner's triangle. */
  ghost predicate TakesCorner(pts: seq<Point>, ring: seq<nat>, rest: seq<nat>, a: nat, b: nat, c: nat) {
    && Within(ring, |pts|) && Within(rest, |pts|) && a < |pts| && b < |pts| && c < |pts|
    && RingArea2(pts, ring) == RingArea2(pts, rest) + Area2(pts[a], pts[b], pts[c])
  }

  lemma {:induction false} ClipFirst(pts: seq<Point>, ring: seq<nat>, rest: seq<nat>)
    requires Within(ring, |pts|) && Within(rest, |pts|) && 3 <= |ring| && rest == Without(ring, 0)
    ensures TakesCorner(pts, ring, rest, ring[|ring| - 1], ring[0], ring[1])
  {
    var n := |ring|;
    CrossOfEdges(pts[ring[n - 1]], pts[ring[0]], pts[ring[1]]);
    CrossFlips(pts[ring[n - 1]], pts[ring[1]]);
    assert rest[0] == ring[1] && rest[n - 2] == ring[n - 1];
    PathSumShifts(pts, ring, 0, 0, n - 2);
  }

  lemma {:induction false} ClipLast(pts: seq<Point>, ring: seq<nat>, rest: seq<nat>)
    requires Within(ring, |pts|) && Within(rest, |pts|) && 3 <= |ring| && rest == Without(ring, |ring| - 1)
    ensures TakesCorner(pts, ring, rest, ring[|ring| - 2], ring[|ring| - 1], ring[0])
  {
    var n := |ring|;
    CrossOfEdges(pts[ring[n - 2]], pts[ring[n - 1]], pts[ring[0]]);
    CrossFlips(pts[ring[n - 2]], pts[ring[0]]);
    assert rest[0] == ring[0] && rest[n - 2] == ring[n - 2];
    PathSumAgrees(pts, ring, rest, n - 2);
  }

  lemma {:induction false} ClipMiddle(pts: seq<Point>, ring: seq<nat>, rest: seq<nat>, i: nat)
    requires Within(ring, |pts|) && Within(rest, |pts|) && 0 < i < |ring| - 1 && rest == Without(ring, i)
    ensures TakesCorner(pts, ring, rest, ring[i - 1], ring[i], ring[i + 1])
  {
    var n := |ring|;
    CrossOfEdges(pts[ring[i - 1]], pts[ring[i]], pts[ring[i + 1]]);
    CrossFlips(pts[ring[i - 1]], pts[ring[i + 1]]);
    assert rest[0] == ring[0] && rest[n - 2] == ring[n - 1];
    assert rest[i - 1] == ring[i - 1] && rest[i] == ring[i + 1];
    PathSumAgrees(pts, ring, rest, i - 1);
    PathSumShifts(pts, ring, i, i, n - 2);
  }

  /** Dropping one corner takes exactly that corner's triangle out of the ring's area. */
  lemma {:induction false} ClipArea(pts: seq<Point>, ring: seq<nat>, i: nat)
    requires Within(ring, |pts|) && 3 <= |ring| && i < |ring|
    ensures Within(Without(ring, i), |pts|)
    ensures RingArea2(pts, ring)
         == RingArea2(pts, Without(ring, i))
            + Area2(pts[ring[Before(i, |ring|)]], pts[ring[i]], pts[ring[After(i, |ring|)]])
  {
    var rest := Without(ring, i);
    WithoutStaysWithin(ring, i, |pts|);
    if i == 0 {
      ClipFirst(pts, ring, rest);
    } else if i == |ring| - 1 {
      ClipLast(pts, ring, rest);
    } else {
      ClipMiddle(pts, ring, rest, i);
    }
  }

  // ----- The area of the whole polygon -----

  function Identity(n: nat): (ring: seq<nat>)
    ensures |ring| == n && forall i {:trigger ring[i]} :: 0 <= i < n ==> ring[i] == i
  {
    seq(n, i => i)
  }

  /** Twice the signed area of the polygon. */
  ghost function PolygonArea2(pts: seq<Point>): real {
    RingArea2(pts, Identity(|pts|))
  }

  /** The sum up to corner `i`; at the end, with the closing edge. */
  ghost function AreaUpTo(pts: seq<Point>, i: nat): real
    requires i <= |pts|
  {
    if i < |pts| then PathSum(pts, Identity(|pts|), i) else PolygonArea2(pts)
  }

  lemma {:induction false} AreaNext(pts: seq<Point>, i: nat, j: nat)
    requires i < |pts| && j == if i + 1 == |pts| then 0 else i + 1
    ensures AreaUpTo(pts, i + 1) == AreaUpTo(pts, i) + EdgeTerm(pts[i], pts[j])
  {
    EdgeIsCross(pts[i], pts[j]);
  }

  /** `p.x * q.y - q.x * p.y`. */
  function EdgeTerm(p: Point, q: Point): real {
    p.x * q.y - q.x * p.y
  }

  lemma {:induction false} EdgeIsCross(p: Point, q: Point)
    ensures EdgeTerm(p, q) == Cross(p, q)
  {
  }

  method SignedArea(pts: seq<Point>) returns (area: real)
    ensures 2.0 * area == PolygonArea2(pts)
  {
    var a := 0.0;
    var i := 0;
    while i < |pts|
      invariant 0 <= i <= |pts| && a == AreaUpTo(pts, i)
    {
      var j := (i + 1) % |pts|;
      NextIndex(i, |pts|);
      AreaNext(pts, i, j);
      a := a + EdgeTerm(pts[i], pts[j]);
      i := i + 1;
    }
    area := a * 0.5;
  }

  // ----- Ears -----

  /** Corner `i` is a strict turn in the winding's sense and no other ring point lies in its triangle. */
  ghost predicate IsEar(pts: seq<Point>, ring: seq<nat>, i: nat, winding: real)
    requires Within(ring, |pts|) && i < |ring|
  {
    var ia, ib, ic := ring[Before(i, |ring|)], ring[i], ring[After(i, |ring|)];
    && Area2(pts[ia], pts[ib], pts[ic]) * winding > EAR_EPS
    && forall k {:trigger ring[k]} :: 0 <= k < |ring| && ring[k] != ia && ring[k] != ib && ring[k] != ic ==>
         !PointInTri(pts[ring[k]], pts[ia], pts[ib], pts[ic], winding)
  }

  method ContainsOther(pts: seq<Point>, ring: seq<nat>, ia: nat, ib: nat, ic: nat, winding: real)
    returns (contains: bool)
    requires Within(ring, |pts|) && ia < |pts| && ib < |pts| && ic < |pts|
    ensures !contains <==>
      forall k {:trigger ring[k]} :: 0 <= k < |ring| && ring[k] != ia && ring[k] != ib && ring[k] != ic ==>
        !PointInTri(pts[ring[k]], pts[ia], pts[ib], pts[ic], winding)
  {
    var k := 0;
    while k < |ring|
      invariant 0 <= k <= |ring|
      invariant forall j {:trigger ring[j]} :: 0 <= j < k && ring[j] != ia && ring[j] != ib && ring[j] != ic ==>
        !PointInTri(pts[ring[j]], pts[ia], pts[ib], pts[ic], winding)
    {
      var idx := ring[k];
      if idx != ia && idx != ib && idx != ic {
        if PointInTri(pts[idx], pts[ia], pts[ib], pts[ic], winding) {
          return true;
        }
      }
      k := k + 1;
    }
    return false;
  }

  /** The first ear from corner `i` on; the length of the ring when there is none. */
  ghost function FirstEar(pts: seq<Point>, ring: seq<nat>, winding: real, i: nat): (r: nat)
    requires Within(ring, |pts|) && i <= |ring|
    ensures i <= r <= |ring| && (r < |ring| ==> IsEar(pts, ring, r, winding))
    ensures forall k {:trigger IsEar(pts, ring, k, winding)} :: i <= k < r ==> !IsEar(pts, ring, k, winding)
    decreases |ring| - i
  {
    if i == |ring| || IsEar(pts, ring, i, winding) then i else FirstEar(pts, ring, winding, i + 1)
  }

  /** The corner before, the corner itself and the one after. */
  method Corner(ring: seq<nat>, i: nat) returns (ia: nat, ib: nat, ic: nat)
    requires i < |ring|
    ensures ia == ring[Before(i, |ring|)] && ib == ring[i] && ic == ring[After(i, |ring|)]
  {
    NextIndex(i, |ring|);
    PreviousIndex(i, |ring|);
    ia, ib := ring[(i + |ring| - 1) % |ring|], ring[i];
    ic := ring[(i + 1) % |ring|];
  }

  method IsEarAt(pts: seq<Point>, ring: seq<nat>, winding: real, i: nat) returns (ear: bool)
    requires Within(ring, |pts|) && i < |ring|
    ensures ear == IsEar(pts, ring, i, winding)
  {
    var ia, ib, ic := Corner(ring, i);
    var a, b, c := pts[ia], pts[ib], pts[ic];
    if Cross(Minus(b, a), Minus(c, b)) * winding <= EAR_EPS {
      return false;
    }
    var contains := ContainsOther(pts, ring, ia, ib, ic, winding);
    ear := !contains;
  }

  /** The scan for an ear: the first corner that is one. */
  method FindEar(pts: seq<Point>, ring: seq<nat>, winding: real) returns (found: bool, i: nat)
    requires Within(ring, |pts|)
    ensures i == FirstEar(pts, ring, winding, 0) && (found <==> i < |ring|)
    ensures found ==> IsEar(pts, ring, i, winding)
    ensures !found ==> forall k :: 0 <= k < |ring| ==> !IsEar(pts, ring, k, winding)
  {
    i := 0;
    while i < |ring|
      invariant 0 <= i <= |ring| && FirstEar(pts, ring, winding, 0) == FirstEar(pts, ring, winding, i)
    {
      var ear := IsEarAt(pts, ring, winding, i);
      if ear {
        return true, i;
      }
      i := i + 1;
    }
    return false, i;
  }

  // ----- Emitted triangles -----

  ghost predicate Triples(indices: seq<nat>, n: nat) {
    |indices| % 3 == 0 && Within(indices, n)
  }

  /** Twice the summed signed area of the first `k` emitted triangles. */
  ghost function EmittedArea2(pts: seq<Point>, indices: seq<nat>, k: nat): real
    requires Within(indices, |pts|) && 3 * k <= |indices|
  {
    if k == 0 then 0.0
    else EmittedArea2(pts, indices, k - 1) + TriangleArea2(pts, indices, k - 1)
  }

  ghost function TriangleArea2(pts: seq<Point>, indices: seq<nat>, k: nat): real
    requires Within(indices, |pts|) && 3 * k + 2 < |indices|
  {
    Area2(pts[indices[3 * k]], pts[indices[3 * k + 1]], pts[indices[3 * k + 2]])
  }

  lemma {:induction false} EmittedAgrees(pts: seq<Point>, indices: seq<nat>, more: seq<nat>, k: nat)
    requires Within(indices, |pts|) && Within(more, |pts|) && 3 * k <= |indices|
    requires indices <= more
    ensures EmittedArea2(pts, more, k) == EmittedArea2(pts, indices, k)
    ensures forall j {:trigger TriangleArea2(pts, more, j)} :: 0 <= j < k ==>
      TriangleArea2(pts, more, j) == TriangleArea2(pts, indices, j)
  {
    if k > 0 {
      EmittedAgrees(pts, indices, more, k - 1);
    }
  }

  /** A triangle in the output order: reversed for a clockwise polygon. */
  function Oriented(ia: nat, ib: nat, ic: nat, winding: real): seq<nat> {
    if winding > 0.0 then [ia, ib, ic] else [ic, ib, ia]
  }

  lemma {:induction false} OrientedArea(pts: seq<Point>, indices: seq<nat>, k: nat, ia: nat, ib: nat,
                                        ic: nat, winding: real)
    requires Within(indices, |pts|) && |indices| == 3 * k && ia < |pts| && ib < |pts| && ic < |pts|
    requires winding == 1.0 || winding == -1.0
    ensures var more := indices + Oriented(ia, ib, ic, winding);
            && Triples(more, |pts|) && |more| == 3 * (k + 1)
            && TriangleArea2(pts, more, k) == winding * Area2(pts[ia], pts[ib], pts[ic])
            && EmittedArea2(pts, more, k + 1)
            == EmittedArea2(pts, indices, k) + winding * Area2(pts[ia], pts[ib], pts[ic])
            && forall j {:trigger TriangleArea2(pts, more, j)} :: 0 <= j < k ==>
                 TriangleArea2(pts, more, j) == TriangleArea2(pts, indices, j)
  {
    var more := indices + Oriented(ia, ib, ic, winding);
    assert more[3 * k] == Oriented(ia, ib, ic, winding)[0];
    assert more[3 * k + 1] == Oriented(ia, ib, ic, winding)[1];
    assert more[3 * k + 2] == Oriented(ia, ib, ic, winding)[2];
    EmittedAgrees(pts, indices, more, k);
    ReversedArea(pts[ia], pts[ib], pts[ic]);
  }

  lemma {:induction false} ReversedArea(a: Point, b: Point, c: Point)
    ensures Area2(c, b, a) == -Area2(a, b, c)
  {
  }

  // ----- Clipping -----

  ghost predicate Increasing(ring: seq<nat>) {
    forall i, j {:trigger ring[i], ring[j]} :: 0 <= i < j < |ring| ==> ring[i] < ring[j]
  }

  /** What stays constant: emitted area plus ring area in the winding's sense; and the counts. */
  ghost predicate Balanced(pts: seq<Point>, ring: seq<nat>, indices: seq<nat>, winding: real) {
    && Within(ring, |pts|) && Increasing(ring) && Triples(indices, |pts|)
    && |indices| / 3 + |ring| == |pts|
    && EmittedArea2(pts, indices, |indices| / 3) + winding * RingArea2(pts, ring)
    == winding * PolygonArea2(pts)
    && EarsTurnRight(pts, indices, |indices| / 3)
  }

  /** The first `k` triangles come out positively oriented, each by more than the ear tolerance. */
  ghost predicate EarsTurnRight(pts: seq<Point>, indices: seq<nat>, k: nat)
    requires Within(indices, |pts|)
  {
    && 3 * k <= |indices|
    && forall j {:trigger TriangleArea2(pts, indices, j)} :: 0 <= j < k ==>
         TriangleArea2(pts, indices, j) > EAR_EPS
  }

  ghost function CornerArea2(pts: seq<Point>, ring: seq<nat>, i: nat): real
    requires Within(ring, |pts|) && i < |ring|
  {
    Area2(pts[ring[Before(i, |ring|)]], pts[ring[i]], pts[ring[After(i, |ring|)]])
  }

  /** What a clip emits. */
  function CornerTriangle(ring: seq<nat>, i: nat, winding: real): seq<nat>
    requires i < |ring|
  {
    Oriented(ring[Before(i, |ring|)], ring[i], ring[After(i, |ring|)], winding)
  }

  lemma {:induction false} WithoutStaysIncreasing(ring: seq<nat>, i: nat)
    requires Increasing(ring) && i < |ring|
    ensures Increasing(Without(ring, i))
  {
    var rest := Without(ring, i);
    forall j, k | 0 <= j < k < |rest|
      ensures rest[j] < rest[k]
    {
      assert rest[j] == if j < i then ring[j] else ring[j + 1];
      assert rest[k] == if k < i then ring[k] else ring[k + 1];
    }
  }

  /** What the clipped corner takes from the ring is what its triangle adds. */
  lemma {:induction false} ClipKeepsArea(pts: seq<Point>, ring: seq<nat>, indices: seq<nat>,
                                         winding: real, i: nat)
    requires Within(ring, |pts|) && Triples(indices, |pts|) && |ring| > 3 && i < |ring|
    requires winding == 1.0 || winding == -1.0
    ensures var more, k := indices + CornerTriangle(ring, i, winding), |indices| / 3;
            && Triples(more, |pts|) && |more| / 3 == k + 1 && Within(Without(ring, i), |pts|)
            && EmittedArea2(pts, more, |more| / 3) + winding * RingArea2(pts, Without(ring, i))
            == EmittedArea2(pts, indices, k) + winding * RingArea2(pts, ring)
  {
    var n := |ring|;
    ClipArea(pts, ring, i);
    OrientedArea(pts, indices, |indices| / 3, ring[Before(i, n)], ring[i], ring[After(i, n)], winding);
    Distribute(winding, RingArea2(pts, Without(ring, i)), CornerArea2(pts, ring, i));
  }

  /** Clipping a corner that turns in the winding's sense keeps the balance. */
  lemma {:induction false} ClipBalances(pts: seq<Point>, ring: seq<nat>, indices: seq<nat>,
                                        winding: real, i: nat)
    requires Balanced(pts, ring, indices, winding) && |ring| > 3 && i < |ring|
    requires winding == 1.0 || winding == -1.0
    requires winding * CornerArea2(pts, ring, i) > EAR_EPS
    ensures Balanced(pts, Without(ring, i), indices + CornerTriangle(ring, i, winding), winding)
  {
    var n := |ring|;
    ClipKeepsArea(pts, ring, indices, winding, i);
    WithoutStaysIncreasing(ring, i);
    EarEmitted(pts, indices, ring[Before(i, n)], ring[i], ring[After(i, n)], winding);
  }

  lemma {:induction false} EarTurns(pts: seq<Point>, ring: seq<nat>, i: nat, winding: real)
    requires Within(ring, |pts|) && i < |ring| && IsEar(pts, ring, i, winding)
    ensures winding * CornerArea2(pts, ring, i) > EAR_EPS
  {
  }

  /** A corner beyond the tolerance is emitted with its area, in the sense of the winding. */
  lemma {:induction false} EarEmitted(pts: seq<Point>, indices: seq<nat>, ia: nat, ib: nat, ic: nat, winding: real)
    requires Triples(indices, |pts|) && EarsTurnRight(pts, indices, |indices| / 3)
    requires ia < |pts| && ib < |pts| && ic < |pts| && (winding == 1.0 || winding == -1.0)
    requires winding * Area2(pts[ia], pts[ib], pts[ic]) > EAR_EPS
    ensures var more, k := indices + Oriented(ia, ib, ic, winding), |indices| / 3;
            Triples(more, |pts|) && |more| / 3 == k + 1 && EarsTurnRight(pts, more, |more| / 3)
  {
    var more, k := indices + Oriented(ia, ib, ic, winding), |indices| / 3;
    OrientedArea(pts, indices, k, ia, ib, ic, winding);
    forall j | 0 <= j < k + 1
      ensures TriangleArea2(pts, more, j) > EAR_EPS
    {
      if j < k {
        assert TriangleArea2(pts, more, j) == TriangleArea2(pts, indices, j);
      }
    }
  }

  lemma {:induction false} Distribute(w: real, x: real, y: real)
    ensures w * (x + y) == w * x + w * y
  {
  }

  /**
    * What triangulating promises: whole triangles over the polygon's corners, and no area lost. `ring`
    * is what was left unclipped: three corners, which the last triangle takes, or a ring without an
    * ear, whose area makes up the difference.
    */
  ghost predicate Triangulates(polygon: seq<Point>, indices: seq<nat>, ring: seq<nat>)
    requires |polygon| >= 3
  {
    && Triples(indices, |polygon|) && 3 <= |ring| <= |polygon| && Within(ring, |polygon|)
    && EarsTurnRight(polygon, indices, |polygon| - |ring|)
    && (|ring| == 3 ==>
          && |indices| == 3 * (|polygon| - 2)
          && EmittedArea2(polygon, indices, |polygon| - 2) == Abs(PolygonArea2(polygon)))
    && (|ring| > 3 ==>
          && |indices| == 3 * (|polygon| - |ring|)
          && EmittedArea2(polygon, indices, |polygon| - |ring|)
             + Winding(polygon) * RingArea2(polygon, ring) == Abs(PolygonArea2(polygon))
          && forall i :: 0 <= i < |ring| ==> !IsEar(polygon, ring, i, Winding(polygon)))
  }

  /** `triangulate_simple`, returning the indices it pushes. The guard never ends the loop. */
  method TriangulateSimple(polygon: seq<Point>) returns (indices: seq<nat>, ghost ring: seq<nat>)
    ensures indices == Triangulation(polygon)
    ensures |polygon| < 3 ==> indices == []
    ensures |polygon| >= 3 ==> Triangulates(polygon, indices, ring)
    ensures StronglyConvex(polygon) ==> |ring| <= 3
  {
    indices, ring := [], [];
    if |polygon| < 3 {
      return;
    }
    var area := SignedArea(polygon);
    var winding := if area >= 0.0 then 1.0 else -1.0;
    assert winding == Winding(polygon);
    var order;
    indices, order := ClipEars(polygon, winding);
    ring := order;
    if |order| == 3 {
      Finished(polygon, order, indices);
      indices := indices + Oriented(order[0], order[1], order[2], winding);
    } else {
      Unfinished(polygon, order, indices);
    }
  }

  /** Three corners left: the last triangle takes what is left of the area. */
  lemma {:induction false} LastArea(polygon: seq<Point>, order: seq<nat>, indices: seq<nat>)
    requires |polygon| >= 3 && |order| == 3 && Balanced(polygon, order, indices, Winding(polygon))
    ensures var more := indices + Oriented(order[0], order[1], order[2], Winding(polygon));
            && Triples(more, |polygon|) && |more| == 3 * (|polygon| - 2)
            && EmittedArea2(polygon, more, |polygon| - 2) == Abs(PolygonArea2(polygon))
            && EarsTurnRight(polygon, more, |polygon| - 3)
  {
    LastTriangle(polygon, order);
    OrientedArea(polygon, indices, |indices| / 3, order[0], order[1], order[2], Winding(polygon));
  }

  lemma {:induction false} Finished(polygon: seq<Point>, order: seq<nat>, indices: seq<nat>)
    requires |polygon| >= 3 && |order| == 3 && Balanced(polygon, order, indices, Winding(polygon))
    ensures Triangulates(polygon, indices + Oriented(order[0], order[1], order[2], Winding(polygon)), order)
  {
    LastArea(polygon, order, indices);
  }

  /** A ring without an ear keeps the rest of the area; no convex polygon leaves one. */
  lemma {:induction false} Unfinished(polygon: seq<Point>, order: seq<nat>, indices: seq<nat>)
    requires |polygon| >= 3 && 3 < |order| <= |polygon| && Balanced(polygon, order, indices, Winding(polygon))
    requires forall k :: 0 <= k < |order| ==> !IsEar(polygon, order, k, Winding(polygon))
    ensures Triangulates(polygon, indices, order) && !StronglyConvex(polygon)
  {
    if StronglyConvex(polygon) {
      ConvexHasEar(polygon, order);
    }
  }

  /** What clipping emits from a ring on, and the ring it leaves: always the first ear. */
  ghost function Clipped(pts: seq<Point>, ring: seq<nat>, winding: real): (r: (seq<nat>, seq<nat>))
    requires Within(ring, |pts|)
    decreases |ring|
  {
    var i := FirstEar(pts, ring, winding, 0);
    if |ring| <= 3 || i == |ring| then ([], ring)
    else
      WithoutStaysWithin(ring, i, |pts|);
      var rest := Clipped(pts, Without(ring, i), winding);
      (CornerTriangle(ring, i, winding) + rest.0, rest.1)
  }

  /** What `triangulate_simple` pushes. */
  ghost function Triangulation(polygon: seq<Point>): seq<nat> {
    if |polygon| < 3 then []
    else
      var (indices, ring) := Clipped(polygon, Identity(|polygon|), Winding(polygon));
      if |ring| == 3 then indices + Oriented(ring[0], ring[1], ring[2], Winding(polygon)) else indices
  }

  lemma {:induction false} OneTripleMore(ia: nat, ib: nat, ic: nat, winding: real, indices: seq<nat>, n: nat)
    requires ia < n && ib < n && ic < n && Triples(indices, n)
    ensures Triples(Oriented(ia, ib, ic, winding) + indices, n)
    ensures Triples(indices + Oriented(ia, ib, ic, winding), n)
  {
  }

  lemma {:induction false} ClippedIsWhole(pts: seq<Point>, ring: seq<nat>, winding: real)
    requires Within(ring, |pts|)
    ensures Triples(Clipped(pts, ring, winding).0, |pts|) && Within(Clipped(pts, ring, winding).1, |pts|)
    decreases |ring|
  {
    var n, i := |ring|, FirstEar(pts, ring, winding, 0);
    if n > 3 && i < n {
      WithoutStaysWithin(ring, i, |pts|);
      ClippedIsWhole(pts, Without(ring, i), winding);
      OneTripleMore(ring[Before(i, n)], ring[i], ring[After(i, n)], winding,
                    Clipped(pts, Without(ring, i), winding).0, |pts|);
    }
  }

  lemma {:induction false} TriangulationIsWhole(polygon: seq<Point>)
    ensures Triples(Triangulation(polygon), |polygon|)
  {
    if |polygon| >= 3 {
      ClippedIsWhole(polygon, Identity(|polygon|), Winding(polygon));
      var (indices, ring) := Clipped(polygon, Identity(|polygon|), Winding(polygon));
      if |ring| == 3 {
        OneTripleMore(ring[0], ring[1], ring[2], Winding(polygon), indices, |polygon|);
      }
    }
  }

  /** Underway: balanced, with the rest of the clipping still to come. */
  ghost predicate Clipping(pts: seq<Point>, ring: seq<nat>, indices: seq<nat>, winding: real) {
    && 3 <= |ring| <= |pts| && Balanced(pts, ring, indices, winding)
    && var rest, all := Clipped(pts, ring, winding), Clipped(pts, Identity(|pts|), winding);
       indices + rest.0 == all.0 && rest.1 == all.1
  }

  /** The clipping loop with its guard; it ends with three corners left or for want of an ear. */
  method ClipEars(polygon: seq<Point>, winding: real) returns (indices: seq<nat>, order: seq<nat>)
    requires |polygon| >= 3 && (winding == 1.0 || winding == -1.0)
    ensures 3 <= |order| <= |polygon| && Balanced(polygon, order, indices, winding)
    ensures |order| > 3 ==> forall k :: 0 <= k < |order| ==> !IsEar(polygon, order, k, winding)
    ensures (indices, order) == Clipped(polygon, Identity(|polygon|), winding)
  {
    indices, order := [], Identity(|polygon|);
    var guard := |polygon| * |polygon|;
    Squares(|polygon|);
    ClipStarts(polygon, winding);
    while |order| > 3 && guard > 0
      invariant 3 <= |order| <= |polygon| && Clipping(polygon, order, indices, winding)
      invariant guard == |polygon| * |polygon| - (|polygon| - |order|)
      decreases |order|
    {
      guard := guard - 1;
      var clipped, i := FindEar(polygon, order, winding);
      if !clipped {
        break;
      }
      ClipNext(polygon, order, indices, winding, i);
      indices := indices + CornerTriangle(order, i, winding);
      order := Without(order, i);
    }
    ClipEnds(polygon, order, indices, winding);
  }

  lemma {:induction false} ClipStarts(pts: seq<Point>, winding: real)
    requires |pts| >= 3
    ensures Clipping(pts, Identity(|pts|), [], winding)
  {
  }

  lemma {:induction false} ClipEnds(pts: seq<Point>, ring: seq<nat>, indices: seq<nat>, winding: real)
    requires Clipping(pts, ring, indices, winding)
    requires |ring| == 3 || FirstEar(pts, ring, winding, 0) == |ring|
    ensures (indices, ring) == Clipped(pts, Identity(|pts|), winding)
    ensures |ring| > 3 ==> forall k :: 0 <= k < |ring| ==> !IsEar(pts, ring, k, winding)
  {
    assert indices + [] == indices;
  }

  lemma {:induction false} ClipNext(pts: seq<Point>, ring: seq<nat>, indices: seq<nat>, winding: real, i: nat)
    requires Clipping(pts, ring, indices, winding) && |ring| > 3 && (winding == 1.0 || winding == -1.0)
    requires i == FirstEar(pts, ring, winding, 0) < |ring|
    ensures Clipping(pts, Without(ring, i), indices + CornerTriangle(ring, i, winding), winding)
  {
    EarTurns(pts, ring, i, winding);
    ClipBalances(pts, ring, indices, winding, i);
    Assoc(indices, CornerTriangle(ring, i, winding), Clipped(pts, Without(ring, i), winding).0);
  }

  lemma {:induction false} Squares(n: nat)
    requires n >= 3
    ensures n * n >= 3 * n
  {
  }

  ghost function Winding(pts: seq<Point>): real {
    if PolygonArea2(pts) >= 0.0 then 1.0 else -1.0
  }

  /** A ring of three encloses its triangle. */
  lemma {:induction false} LastTriangle(pts: seq<Point>, ring: seq<nat>)
    requires Within(ring, |pts|) && |ring| == 3
    ensures RingArea2(pts, ring) == Area2(pts[ring[0]], pts[ring[1]], pts[ring[2]])
  {
    var a, b, c := pts[ring[0]], pts[ring[1]], pts[ring[2]];
    CrossOfEdges(a, b, c);
    CrossFlips(a, c);
    assert PathSum(pts, ring, 2) == PathSum(pts, ring, 1) + Cross(b, c);
    assert PathSum(pts, ring, 1) == PathSum(pts, ring, 0) + Cross(a, b);
  }

  // ----- Convex polygons are always finished -----

  /** Any three corners, in order, turn the same way by more than the inside tolerance. */
  ghost predicate StronglyConvex(pts: seq<Point>) {
    forall i, j, k {:trigger Area2(pts[i], pts[j], pts[k])} :: 0 <= i < j < k < |pts| ==>
      Area2(pts[i], pts[j], pts[k]) * Winding(pts) > INSIDE_EPS
  }

  lemma {:induction false} Rotated(a: Point, b: Point, c: Point)
    ensures Area2(a, b, c) == Area2(b, c, a)
  {
  }

  lemma {:induction false} ThirdEdge(a: Point, c: Point, p: Point)
    ensures Cross(Minus(a, c), Minus(p, c)) == -Area2(c, p, a)
  {
  }

  lemma {:induction false} ConvexHasEar(pts: seq<Point>, ring: seq<nat>)
    requires StronglyConvex(pts) && Within(ring, |pts|) && Increasing(ring) && |ring| > 3
    ensures IsEar(pts, ring, 0, Winding(pts))
  {
    var n := |ring|;
    var ia, ib, ic := ring[n - 1], ring[0], ring[1];
    var w := Winding(pts);
    Rotated(pts[ia], pts[ib], pts[ic]);
    assert Area2(pts[ib], pts[ic], pts[ia]) * w > INSIDE_EPS;
    forall k | 0 <= k < n && ring[k] != ia && ring[k] != ib && ring[k] != ic
      ensures !PointInTri(pts[ring[k]], pts[ia], pts[ib], pts[ic], w)
    {
      assert ic < ring[k] < ia;
      ThirdEdge(pts[ia], pts[ic], pts[ring[k]]);
      assert Area2(pts[ic], pts[ring[k]], pts[ia]) * w > INSIDE_EPS;
    }
  }
}
