/**
  What ear clipping cuts off, in terms of orientation: counter-clockwise corners whose triangle is clear
  of all other remaining corners, the first one each time, until three corners or no such corner are left.
  Source: backend/services/osm_scene_builder.py
*/
module EarClipping {
  import opened Arithmetic
  import opened Wrappers
  import opened Boundary
  import opened Triangulation

  /** Twice the signed area of a triangle: positive when its corners are listed counter-clockwise. */
  function Orientation(a: Point, b: Point, c: Point): real {
    (b.x - a.x) * (c.y - a.y) - (c.x - a.x) * (b.y - a.y)
  }

  function Shortage(x: real): real {
    if x < 0.0 then -x else 0.0
  }

  /** How far `p` is from the counter-clockwise triangle: what its three orientations lack to be positive. */
  function Outside(p: Point, a: Point, b: Point, c: Point): real {
    Shortage(Orientation(a, b, p)) + Shortage(Orientation(b, c, p)) + Shortage(Orientation(c, a, p))
  }

  /** In the closed triangle. */
  predicate InClosedTriangle(p: Point, a: Point, b: Point, c: Point) {
    Orientation(a, b, p) >= 0.0 && Orientation(b, c, p) >= 0.0 && Orientation(c, a, p) >= 0.0
  }

  /** The corner at `i` turns left by more than the first tolerance, and all others are outside by at least the second. */
  ghost predicate IsClear(points: seq<Point>, remaining: seq<nat>, i: nat)
    requires i < |remaining| && ValidIndices(points, remaining)
  {
    var previous, current, following := Before(remaining, i), remaining[i], After(remaining, i);
    && Orientation(points[previous], points[current], points[following]) > 0.000000001
    && forall k :: 0 <= k < |remaining| && remaining[k] != previous && remaining[k] != current && remaining[k] != following ==>
         Outside(points[remaining[k]], points[previous], points[current], points[following]) >= 0.0000005
  }

  lemma OrientationsAddUp(p: Point, a: Point, b: Point, c: Point)
    ensures Orientation(a, b, p) + Orientation(b, c, p) + Orientation(c, a, p) == Orientation(a, b, c)
    ensures Cross(a, b, c) == Orientation(a, b, c)
    ensures Cross(p, a, b) == Orientation(a, b, p) && Cross(p, b, c) == Orientation(b, c, p) && Cross(p, c, a) == Orientation(c, a, p)
  {
  }

  /** The area test for a point in a counter-clockwise triangle measures twice what the point lacks. */
  lemma AreaTestIsOutside(p: Point, a: Point, b: Point, c: Point)
    requires Orientation(a, b, c) > 0.0
    ensures PointInTriangle(p, a, b, c) <==> Outside(p, a, b, c) < 0.0000005
    ensures InClosedTriangle(p, a, b, c) <==> Outside(p, a, b, c) == 0.0
  {
    hide Cross, Orientation;
    OrientationsAddUp(p, a, b, c);
  }

  /** The ears are exactly the clear corners. */
  lemma EarsAreClear(points: seq<Point>, remaining: seq<nat>, i: nat)
    requires i < |remaining| && ValidIndices(points, remaining)
    ensures IsEar(points, remaining, i) <==> IsClear(points, remaining, i)
  {
    hide Cross, Orientation, PointInTriangle, Outside;
    var a, b, c := points[Before(remaining, i)], points[remaining[i]], points[After(remaining, i)];
    OrientationsAddUp(a, a, b, c);
    if Orientation(a, b, c) > 0.0 {
      forall k | 0 <= k < |remaining|
        ensures PointInTriangle(points[remaining[k]], a, b, c) <==> Outside(points[remaining[k]], a, b, c) < 0.0000005
      {
        AreaTestIsOutside(points[remaining[k]], a, b, c);
      }
    }
  }

  /** A clear corner has positive area, and its closed triangle holds no other remaining corner. */
  lemma ClearTrianglesAreEmpty(points: seq<Point>, remaining: seq<nat>, i: nat, k: nat)
    requires i < |remaining| && k < |remaining| && ValidIndices(points, remaining) && IsClear(points, remaining, i)
    requires remaining[k] != Before(remaining, i) && remaining[k] != remaining[i] && remaining[k] != After(remaining, i)
    ensures Orientation(points[Before(remaining, i)], points[remaining[i]], points[After(remaining, i)]) > 0.0
    ensures !InClosedTriangle(points[remaining[k]], points[Before(remaining, i)], points[remaining[i]], points[After(remaining, i)])
  {
    hide Orientation, PointInTriangle;
    AreaTestIsOutside(points[remaining[k]], points[Before(remaining, i)], points[remaining[i]], points[After(remaining, i)]);
  }

  // ---------- The whole triangulation

  /** One cut: the first clear corner goes, with its two neighbours as a triangle. */
  ghost predicate CutsFirstClear(points: seq<Point>, before: seq<nat>, after: seq<nat>, t: Tri) {
    && ValidIndices(points, before)
    && exists i: nat :: i < |before| && IsClear(points, before, i)
         && (forall j: nat :: j < i ==> !IsClear(points, before, j))
         && t == Tri(Before(before, i), before[i], After(before, i)) && after == RemoveAt(before, i)
  }

  /** From `stages[0]` on, one triangle per cut, each from more than three remaining corners. */
  ghost predicate Cuts(points: seq<Point>, stages: seq<seq<nat>>, clipped: seq<Tri>) {
    && |stages| == |clipped| + 1
    && forall k: nat, next: nat :: k < |clipped| && next == k + 1 ==>
         |stages[k]| > 3 && CutsFirstClear(points, stages[k], stages[next], clipped[k])
  }

  ghost predicate NoneClear(points: seq<Point>, remaining: seq<nat>) {
    ValidIndices(points, remaining) && forall i: nat :: i < |remaining| ==> !IsClear(points, remaining, i)
  }

  /**
    The triangles come from cutting the first clear corner again and again. Cutting ends with three corners,
    which make the last triangle; or it ends with more, of which none is clear, and the fan of the whole
    polygon is returned.
  */
  ghost predicate IsClipping(points: seq<Point>, stages: seq<seq<nat>>, clipped: seq<Tri>, triangles: seq<Tri>) {
    && Cuts(points, stages, clipped) && stages[0] == Iota(|points|)
    && var last := stages[|clipped|];
    if |last| == 3 then triangles == clipped + [Tri(last[0], last[1], last[2])]
    else |last| > 3 && NoneClear(points, last) && triangles == Fan(|points|)
  }

  lemma FirstEarIsFirstClear(points: seq<Point>, remaining: seq<nat>)
    requires ValidIndices(points, remaining)
    ensures var ear := FirstEar(points, remaining, 0);
            && ear <= |remaining| && (forall j: nat :: j < ear ==> !IsClear(points, remaining, j))
            && (ear < |remaining| ==> IsClear(points, remaining, ear))
  {
    hide IsEar, IsClear;
    forall j: nat | j < |remaining| ensures IsEar(points, remaining, j) <==> IsClear(points, remaining, j) {
      EarsAreClear(points, remaining, j);
    }
  }

  /** With more than three corners left: the first cut, or none. */
  lemma FirstCut(points: seq<Point>, remaining: seq<nat>) returns (after: seq<nat>, t: Tri)
    requires ValidIndices(points, remaining) && |remaining| > 3
    ensures NoneClear(points, remaining) ==> ClipEars(points, remaining) == None
    ensures !NoneClear(points, remaining) ==>
              && CutsFirstClear(points, remaining, after, t) && ValidIndices(points, after) && |after| == |remaining| - 1
              && ClipEars(points, remaining) == Prepend([t], ClipEars(points, after))
  {
    hide IsClear;
    FirstEarIsFirstClear(points, remaining);
    var ear := FirstEar(points, remaining, 0);
    after, t := remaining, Tri(0, 0, 0);
    if ear < |remaining| {
      after, t := RemoveAt(remaining, ear), EarTriangle(remaining, ear);
      assert CutsFirstClear(points, remaining, after, t);
    }
  }

  lemma {:induction false} ClippingOf(points: seq<Point>, remaining: seq<nat>) returns (stages: seq<seq<nat>>, clipped: seq<Tri>)
    requires ValidIndices(points, remaining) && |remaining| >= 3
    ensures Cuts(points, stages, clipped) && stages[0] == remaining
    ensures EndsIn(points, stages[|clipped|], clipped, ClipEars(points, remaining))
    decreases |remaining|
  {
    hide CutsFirstClear, ClipEars, NoneClear, ValidIndices;
    stages, clipped := [remaining], [];
    if |remaining| == 3 {
      LastThree(points, remaining);
    } else {
      var after, t := FirstCut(points, remaining);
      if !NoneClear(points, remaining) {
        var later, cut := ClippingOf(points, after);
        OneMoreCut(points, remaining, later, t, cut);
        PutInFront(points, later[|cut|], t, cut, ClipEars(points, after));
        stages, clipped := [remaining] + later, [t] + cut;
        assert stages[|clipped|] == later[|cut|];
      }
    }
  }

  /** Where cutting ended, and what that makes of the triangles. */
  ghost predicate EndsIn(points: seq<Point>, last: seq<nat>, clipped: seq<Tri>, triangles: Option<seq<Tri>>) {
    if |last| == 3 then triangles == Some(clipped + [Tri(last[0], last[1], last[2])])
    else |last| > 3 && NoneClear(points, last) && triangles == None
  }

  lemma LastThree(points: seq<Point>, remaining: seq<nat>)
    requires ValidIndices(points, remaining) && |remaining| == 3
    ensures EndsIn(points, remaining, [], ClipEars(points, remaining))
  {
    assert [] + [Tri(remaining[0], remaining[1], remaining[2])] == [Tri(remaining[0], remaining[1], remaining[2])];
  }

  lemma PutInFront(points: seq<Point>, last: seq<nat>, t: Tri, cut: seq<Tri>, rest: Option<seq<Tri>>)
    requires EndsIn(points, last, cut, rest)
    ensures EndsIn(points, last, [t] + cut, Prepend([t], rest))
  {
    hide NoneClear;
    if |last| == 3 {
      var three := [Tri(last[0], last[1], last[2])];
      assert [t] + (cut + three) == [t] + cut + three;
    }
  }

  lemma OneMoreCut(points: seq<Point>, first: seq<nat>, later: seq<seq<nat>>, t: Tri, cut: seq<Tri>)
    requires Cuts(points, later, cut) && |first| > 3 && CutsFirstClear(points, first, later[0], t)
    ensures Cuts(points, [first] + later, [t] + cut)
  {
    hide IsClear;
    var stages, clipped := [first] + later, [t] + cut;
    assert |stages| == |clipped| + 1;
    forall k: nat, next: nat | k < |clipped| && next == k + 1
      ensures |stages[k]| > 3 && CutsFirstClear(points, stages[k], stages[next], clipped[k])
    {
      if k > 0 {
        var before := k - 1;
        assert stages[k] == later[before] && stages[next] == later[k] && clipped[k] == cut[before];
        assert |later[before]| > 3 && CutsFirstClear(points, later[before], later[k], cut[before]);
      } else {
        assert stages[next] == later[0];
      }
    }
    assert Cuts(points, stages, clipped);
  }

  /** Every triangulation is a clipping: ears first, and the fan only where no remaining corner is clear. */
  lemma TriangulationIsClipping(points: seq<Point>) returns (stages: seq<seq<nat>>, clipped: seq<Tri>)
    requires |points| >= 3
    ensures IsClipping(points, stages, clipped, Triangulate(points))
  {
    hide Cuts, NoneClear;
    stages, clipped := ClippingOf(points, Iota(|points|));
  }

  /** What was cut off at any stage is counter-clockwise and holds none of the corners that were left. */
  lemma ClippedTrianglesAreEmpty(points: seq<Point>, stages: seq<seq<nat>>, clipped: seq<Tri>, k: nat)
    requires Cuts(points, stages, clipped) && k < |clipped|
    ensures var t := clipped[k];
            && t.a < |points| && t.b < |points| && t.c < |points|
            && Orientation(points[t.a], points[t.b], points[t.c]) > 0.0
            && forall v :: v in stages[k] && v != t.a && v != t.b && v != t.c ==>
                 v < |points| && !InClosedTriangle(points[v], points[t.a], points[t.b], points[t.c])
  {
    hide IsClear, InClosedTriangle, Orientation;
    var next := k + 1;
    var remaining, t := stages[k], clipped[k];
    assert CutsFirstClear(points, remaining, stages[next], t);
    var i: nat :| i < |remaining| && IsClear(points, remaining, i) && t == Tri(Before(remaining, i), remaining[i], After(remaining, i));
    ClearCornerTurnsLeft(points, remaining, i);
    forall v | v in remaining && v != t.a && v != t.b && v != t.c
      ensures v < |points| && !InClosedTriangle(points[v], points[t.a], points[t.b], points[t.c])
    {
      var j :| 0 <= j < |remaining| && remaining[j] == v;
      ClearTrianglesAreEmpty(points, remaining, i, j);
    }
  }

  lemma ClearCornerTurnsLeft(points: seq<Point>, remaining: seq<nat>, i: nat)
    requires i < |remaining| && ValidIndices(points, remaining) && IsClear(points, remaining, i)
    ensures Orientation(points[Before(remaining, i)], points[remaining[i]], points[After(remaining, i)]) > 0.0
  {
    hide Orientation;
  }

  // ---------- The source's loops

  method FanTriangulate(points: seq<Point>) returns (triangles: seq<Tri>)
    ensures triangles == Fan(|points|)
  {
    triangles := [];
    var index := 1;
    while index < |points| - 1
      invariant 1 <= index && (index < |points| || (index == 1 && |points| < 2))
      invariant triangles == Fan(index + 1)
    {
      triangles := triangles + [Tri(0, index, index + 1)];
      index := index + 1;
    }
  }

  method FindEar(points: seq<Point>, remaining: seq<nat>) returns (position: nat)
    requires ValidIndices(points, remaining)
    ensures position == FirstEar(points, remaining, 0) <= |remaining|
    ensures position < |remaining| ==> IsClear(points, remaining, position)
    ensures forall earlier: nat :: earlier < position ==> !IsClear(points, remaining, earlier)
  {
    hide IsClear, IsEar;
    FirstEarIsFirstClear(points, remaining);
    position := 0;
    while position < |remaining|
      invariant position <= |remaining|
      invariant FirstEar(points, remaining, 0) == FirstEar(points, remaining, position)
    {
      if IsEar(points, remaining, position) {
        return;
      }
      position := position + 1;
    }
  }

  method TriangulatePolygon(points: seq<Point>) returns (triangles: seq<Tri>)
    ensures triangles == Triangulate(points)
    ensures |points| >= 3 ==> exists stages, clipped :: IsClipping(points, stages, clipped, triangles)
  {
    hide IsClipping, IsClear, IsEar, FirstEar, ClipEars, Prepend, RemoveAt, EarTriangle;
    if |points| >= 3 {
      ghost var stages, clipped := TriangulationIsClipping(points);
    }
    var remaining := Iota(|points|);
    if |points| == 3 {
      PrependNothing(ClipEars(points, remaining));
      FewLeft(points, remaining, []);
      return [Tri(0, 1, 2)];
    }
    triangles := [];
    var guard := |points| * |points|;
    GuardSuffices(|points|);
    PrependNothing(ClipEars(points, remaining));
    while |remaining| > 3 && guard > 0
      invariant ValidIndices(points, remaining) && |remaining| <= |points|
      invariant guard >= |remaining| - 2
      invariant ClipEars(points, Iota(|points|)) == Prepend(triangles, ClipEars(points, remaining))
      decreases guard
    {
      guard := guard - 1;
      var ear := FindEar(points, remaining);
      ClipStep(points, remaining);
      if ear == |remaining| {
        NothingBehindNone(triangles);
        triangles := FanTriangulate(points);
        return;
      }
      PrependOne(triangles, EarTriangle(remaining, ear), ClipEars(points, RemoveAt(remaining, ear)));
      triangles := triangles + [EarTriangle(remaining, ear)];
      remaining := RemoveAt(remaining, ear);
    }
    FewLeft(points, remaining, triangles);
    if |remaining| == 3 {
      triangles := triangles + [Tri(remaining[0], remaining[1], remaining[2])];
    }
  }

  lemma ClipStep(points: seq<Point>, remaining: seq<nat>)
    requires ValidIndices(points, remaining) && |remaining| > 3
    ensures var ear := FirstEar(points, remaining, 0);
            if ear == |remaining| then ClipEars(points, remaining) == None
            else
              && |RemoveAt(remaining, ear)| == |remaining| - 1 && ValidIndices(points, RemoveAt(remaining, ear))
              && ClipEars(points, remaining) == Prepend([EarTriangle(remaining, ear)], ClipEars(points, RemoveAt(remaining, ear)))
  {
    hide IsEar;
  }

  lemma FewLeft(points: seq<Point>, remaining: seq<nat>, triangles: seq<Tri>)
    requires ValidIndices(points, remaining)
    ensures |remaining| <= 3 ==>
              Prepend(triangles, ClipEars(points, remaining))
              == Some(triangles + if |remaining| == 3 then [Tri(remaining[0], remaining[1], remaining[2])] else [])
  {
  }

  lemma NothingBehindNone(triangles: seq<Tri>)
    ensures Prepend(triangles, None) == None
  {
  }

  lemma PrependNothing(rest: Option<seq<Tri>>)
    ensures Prepend([], rest) == rest
  {
    if rest.Some? {
      assert [] + rest.value == rest.value;
    }
  }

  lemma PrependOne(triangles: seq<Tri>, t: Tri, rest: Option<seq<Tri>>)
    ensures Prepend(triangles, Prepend([t], rest)) == Prepend(triangles + [t], rest)
  {
    if rest.Some? {
      assert triangles + ([t] + rest.value) == (triangles + [t]) + rest.value;
    }
  }

  lemma GuardSuffices(n: nat)
    ensures n * n >= n - 2
  {
    if n > 0 {
      MulMonotone(1, n, n);
    }
  }
}
