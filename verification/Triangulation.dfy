/**
  Ear clipping with a fan fallback, and the footprints it is used on.
  Source: backend/services/osm_scene_builder.py
*/
module Triangulation {
  import opened Wrappers
  import opened Boundary

  datatype Point = Point(x: real, y: real)

  function Abs(x: real): real {
    if x < 0.0 then -x else x
  }

  function Cross(a: Point, b: Point, c: Point): real {
    (b.x - a.x) * (c.y - a.y) - (b.y - a.y) * (c.x - a.x)
  }

  predicate IsConvex(a: Point, b: Point, c: Point) {
    Cross(a, b, c) > 0.000000001
  }

  predicate PointInTriangle(p: Point, a: Point, b: Point, c: Point) {
    Abs(Abs(Cross(a, b, c)) - (Abs(Cross(p, a, b)) + Abs(Cross(p, b, c)) + Abs(Cross(p, c, a)))) < 0.000001
  }

  predicate ValidIndices(points: seq<Point>, remaining: seq<nat>) {
    forall i :: 0 <= i < |remaining| ==> remaining[i] < |points|
  }

  /** The corner at `i` is convex and no other remaining corner lies in its triangle. */
  predicate IsEar(points: seq<Point>, remaining: seq<nat>, i: nat)
    requires i < |remaining| && ValidIndices(points, remaining)
  {
    var previous, current, following := Before(remaining, i), remaining[i], After(remaining, i);
    && IsConvex(points[previous], points[current], points[following])
    && forall k | 0 <= k < |remaining| && remaining[k] !in {previous, current, following} ::
         !PointInTriangle(points[remaining[k]], points[previous], points[current], points[following])
  }

  /** The first ear from position `i` on; the length of `remaining` if there is none. */
  function FirstEar(points: seq<Point>, remaining: seq<nat>, i: nat): (ear: nat)
    requires i <= |remaining| && ValidIndices(points, remaining)
    ensures i <= ear <= |remaining|
    ensures ear < |remaining| ==> IsEar(points, remaining, ear)
    ensures forall j :: i <= j < ear ==> !IsEar(points, remaining, j)
    decreases |remaining| - i
  {
    if i == |remaining| then i
    else if IsEar(points, remaining, i) then i
    else FirstEar(points, remaining, i + 1)
  }

  function EarTriangle(remaining: seq<nat>, i: nat): Tri
    requires i < |remaining|
  {
    Tri(Before(remaining, i), remaining[i], After(remaining, i))
  }

  function Prepend(triangles: seq<Tri>, rest: Option<seq<Tri>>): Option<seq<Tri>> {
    match rest
    case None => None
    case Some(ts) => Some(triangles + ts)
  }

  /** The triangles of clipping ears until three corners are left; None when it gets stuck before. */
  function ClipEars(points: seq<Point>, remaining: seq<nat>): Option<seq<Tri>>
    requires ValidIndices(points, remaining)
    decreases |remaining|
  {
    if |remaining| <= 3 then
      Some(if |remaining| == 3 then [Tri(remaining[0], remaining[1], remaining[2])] else [])
    else
      var ear := FirstEar(points, remaining, 0);
      if ear == |remaining| then None
      else
        Prepend([EarTriangle(remaining, ear)], ClipEars(points, RemoveAt(remaining, ear)))
  }

  function Fan(n: nat): seq<Tri> {
    if n < 3 then [] else Fan(n - 1) + [Tri(0, n - 2, n - 1)]
  }

  function Triangulate(points: seq<Point>): seq<Tri> {
    match ClipEars(points, Iota(|points|))
    case None => Fan(|points|)
    case Some(triangles) => triangles
  }

  // ---------- The triangulation is a chain with the polygon's boundary

  lemma {:induction false} ClipBoundary(f: (nat, nat) -> real, points: seq<Point>, remaining: seq<nat>)
    requires Antisymmetric(f) && ValidIndices(points, remaining) && |remaining| >= 3
    requires ClipEars(points, remaining).Some?
    ensures TriSum(f, ClipEars(points, remaining).value) == CycleSum(f, remaining)
    decreases |remaining|
  {
    if |remaining| == 3 {
      assert remaining == [remaining[0], remaining[1], remaining[2]];
      assert PathSum(f, remaining[1..]) == f(remaining[1], remaining[2]);
      assert TriSum(f, [Tri(remaining[0], remaining[1], remaining[2])]) ==
             TriWeight(f, Tri(remaining[0], remaining[1], remaining[2]));
    } else {
      var ear := FirstEar(points, remaining, 0);
      ClipBoundary(f, points, RemoveAt(remaining, ear));
      CutCorner(f, remaining, ear);
      TriSumConcat(f, [EarTriangle(remaining, ear)], ClipEars(points, RemoveAt(remaining, ear)).value);
    }
  }

  lemma {:induction false} FanBoundary(f: (nat, nat) -> real, n: nat)
    requires Antisymmetric(f) && n >= 2
    ensures TriSum(f, Fan(n)) == CycleSum(f, Iota(n))
  {
    var last: seq<nat> := [n - 1];
    assert Iota(n) == Iota(n - 1) + last;
    PathSumConcat(f, Iota(n - 1), last);
    assert f(n - 1, 0) == -f(0, n - 1);
    if n == 2 {
      assert f(0, 1) == -f(1, 0);
    } else {
      FanBoundary(f, n - 1);
      TriSumConcat(f, Fan(n - 1), [Tri(0, n - 2, n - 1)]);
      assert f(n - 2, 0) == -f(0, n - 2);
    }
  }

  /**
    Ear clipping or fan, convex or not, simple or self-crossing: under every antisymmetric edge weight
    the triangles together weigh what the polygon's boundary weighs.
  */
  lemma TriangulationBoundary(f: (nat, nat) -> real, points: seq<Point>)
    requires Antisymmetric(f) && |points| >= 3
    ensures TriSum(f, Triangulate(points)) == CycleSum(f, Iota(|points|))
  {
    if ClipEars(points, Iota(|points|)).Some? {
      ClipBoundary(f, points, Iota(|points|));
    } else {
      FanBoundary(f, |points|);
    }
  }

  // ---------- Count and validity of the triangles

  predicate Distinct(s: seq<nat>) {
    forall i, j :: 0 <= i < j < |s| ==> s[i] != s[j]
  }

  predicate ProperTriangle(t: Tri, n: nat) {
    t.a < n && t.b < n && t.c < n && t.a != t.b && t.b != t.c && t.c != t.a
  }

  predicate AllProper(ts: seq<Tri>, n: nat) {
    forall i :: 0 <= i < |ts| ==> ProperTriangle(ts[i], n)
  }

  lemma CutKeepsDistinct(remaining: seq<nat>, ear: nat, n: nat)
    requires Distinct(remaining) && |remaining| > 3 && ear < |remaining|
    requires forall i :: 0 <= i < |remaining| ==> remaining[i] < n
    ensures Distinct(RemoveAt(remaining, ear))
    ensures ProperTriangle(EarTriangle(remaining, ear), n)
  {
  }

  lemma {:induction false} ClipProper(points: seq<Point>, remaining: seq<nat>)
    requires ValidIndices(points, remaining) && Distinct(remaining) && |remaining| >= 3
    requires ClipEars(points, remaining).Some?
    ensures |ClipEars(points, remaining).value| == |remaining| - 2
    ensures AllProper(ClipEars(points, remaining).value, |points|)
    decreases |remaining|
  {
    if |remaining| > 3 {
      var ear := FirstEar(points, remaining, 0);
      CutKeepsDistinct(remaining, ear, |points|);
      ClipProper(points, RemoveAt(remaining, ear));
    }
  }

  lemma {:induction false} FanProper(n: nat)
    requires n >= 2
    ensures |Fan(n)| == n - 2
    ensures AllProper(Fan(n), n)
  {
    if n > 2 {
      FanProper(n - 1);
    }
  }

  /** Always exactly n - 2 triangles, each of three different corners of the polygon. */
  lemma TriangulationProper(points: seq<Point>)
    requires |points| >= 3
    ensures |Triangulate(points)| == |points| - 2
    ensures AllProper(Triangulate(points), |points|)
  {
    if ClipEars(points, Iota(|points|)).Some? {
      ClipProper(points, Iota(|points|));
    } else {
      FanProper(|points|);
    }
  }

  // ---------- Area

  function Wedge(p: Point, q: Point): real {
    p.x * q.y - q.x * p.y
  }

  /** The shoelace formula. */
  function SignedArea(points: seq<Point>): real {
    CycleSum(Wedge, points) / 2.0
  }

  method PolygonSignedArea(points: seq<Point>) returns (area: real)
    ensures area == SignedArea(points)
  {
    var sum := 0.0;
    for index := 0 to |points|
      invariant sum == CycleTerms(Wedge, points, index)
    {
      WrapIsMod(index + 1, |points|);
      var current, following := points[index], points[(index + 1) % |points|];
      sum := sum + (current.x * following.y - following.x * current.y);
    }
    TermsAreCycle(Wedge, points);
    area := sum / 2.0;
  }

  function TriangleAreas(points: seq<Point>, ts: seq<Tri>): real
    requires AllProper(ts, |points|)
  {
    if ts == [] then 0.0
    else Cross(points[ts[0].a], points[ts[0].b], points[ts[0].c]) / 2.0 + TriangleAreas(points, ts[1..])
  }

  /** The wedge of two indexed points. */
  function IndexWedge(points: seq<Point>): (nat, nat) -> real {
    (u: nat, v: nat) => if u < |points| && v < |points| then Wedge(points[u], points[v]) else 0.0
  }

  lemma CrossIsWedges(a: Point, b: Point, c: Point)
    ensures Cross(a, b, c) == Wedge(a, b) + Wedge(b, c) + Wedge(c, a)
  {
  }

  lemma {:induction false} AreasAreWedges(points: seq<Point>, ts: seq<Tri>)
    requires AllProper(ts, |points|)
    ensures 2.0 * TriangleAreas(points, ts) == TriSum(IndexWedge(points), ts)
  {
    if ts != [] {
      CrossIsWedges(points[ts[0].a], points[ts[0].b], points[ts[0].c]);
      AreasAreWedges(points, ts[1..]);
    }
  }

  /** Triangulation conserves signed area, on the ear-clipping path and on the fan path. */
  lemma TriangulationConservesArea(points: seq<Point>)
    requires |points| >= 3
    ensures AllProper(Triangulate(points), |points|)
    ensures TriangleAreas(points, Triangulate(points)) == SignedArea(points)
  {
    TriangulationProper(points);
    AreasAreWedges(points, Triangulate(points));
    TriangulationBoundary(IndexWedge(points), points);
    CycleThroughIndices(Wedge, IndexWedge(points), points);
  }

  /** Listing a footprint backwards negates its area. */
  lemma ReversalNegatesArea(points: seq<Point>)
    ensures SignedArea(Reverse(points)) == -SignedArea(points)
  {
    CycleSumReverse(Wedge, points);
  }
}
