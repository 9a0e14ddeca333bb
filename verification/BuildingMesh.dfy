/**
  Footprints in local metres and their extrusion into one indexed mesh.
  Source: backend/services/osm_scene_builder.py
*/
module BuildingMesh {
  import opened Arithmetic
  import opened Boundary
  import opened Triangulation
  import opened EarClipping

  datatype Building = Building(points: seq<Point>, height: real)

  datatype Vertex = Vertex(x: real, y: real, z: real)

  const MIN_POLYGON_AREA_M2 := 4.0

  // ---------- Projection

  /** Centre of the bounds and metres per degree; the cosine behind the latter is not modelled. */
  datatype Projection = Projection(centerX: real, centerY: real, metersPerLon: real, metersPerLat: real)

  function Project(p: Point, projection: Projection): Point {
    Point((p.x - projection.centerX) * projection.metersPerLon, (p.y - projection.centerY) * projection.metersPerLat)
  }

  function ProjectAll(points: seq<Point>, projection: Projection): (r: seq<Point>)
    ensures |r| == |points|
  {
    seq(|points|, i requires 0 <= i < |points| => Project(points[i], projection))
  }

  function RemoveClosingPoint(points: seq<Point>): seq<Point> {
    if |points| < 2 then points
    else
      var first, last := points[0], points[|points| - 1];
      if Abs(first.x - last.x) < 0.000000001 && Abs(first.y - last.y) < 0.000000001
      then points[..|points| - 1] else points
  }

  /** One footprint: dropped when degenerate or too small, turned counter-clockwise otherwise. */
  function ProjectBuilding(building: Building, projection: Projection): seq<Building> {
    var points := RemoveClosingPoint(ProjectAll(building.points, projection));
    var area := SignedArea(points);
    if |points| < 3 || Abs(area) < MIN_POLYGON_AREA_M2 then []
    else [Building(if area < 0.0 then Reverse(points) else points, building.height)]
  }

  function ProjectBuildings(buildings: seq<Building>, projection: Projection): seq<Building> {
    if buildings == [] then []
    else ProjectBuildings(buildings[..|buildings| - 1], projection) + ProjectBuilding(buildings[|buildings| - 1], projection)
  }

  method ProjectBuildingsToLocalMeters(buildings: seq<Building>, projection: Projection) returns (projected: seq<Building>)
    ensures projected == ProjectBuildings(buildings, projection)
  {
    projected := [];
    for i := 0 to |buildings|
      invariant projected == ProjectBuildings(buildings[..i], projection)
    {
      assert buildings[..i + 1][..i] == buildings[..i];
      var points := RemoveClosingPoint(ProjectAll(buildings[i].points, projection));
      if |points| < 3 {
        continue;
      }
      var area := PolygonSignedArea(points);
      if Abs(area) < MIN_POLYGON_AREA_M2 {
        continue;
      }
      if area < 0.0 {
        points := Reverse(points);
      }
      projected := projected + [Building(points, buildings[i].height)];
    }
    assert buildings[..|buildings|] == buildings;
  }

  predicate Usable(building: Building) {
    |building.points| >= 3 && SignedArea(building.points) >= MIN_POLYGON_AREA_M2
  }

  /** Every projected building has at least three corners and, counted counter-clockwise, at least the minimal area. */
  lemma {:induction false} ProjectedBuildingsAreUsable(buildings: seq<Building>, projection: Projection)
    ensures forall i :: 0 <= i < |ProjectBuildings(buildings, projection)| ==> Usable(ProjectBuildings(buildings, projection)[i])
  {
    if buildings != [] {
      ProjectedBuildingsAreUsable(buildings[..|buildings| - 1], projection);
      ReversalNegatesArea(RemoveClosingPoint(ProjectAll(buildings[|buildings| - 1].points, projection)));
    }
  }

  /** Projection moves the centre to the origin and stretches both axes. */
  lemma ProjectionStretches(p: Point, q: Point, projection: Projection)
    ensures Project(Point(projection.centerX, projection.centerY), projection) == Point(0.0, 0.0)
    ensures Project(q, projection).x - Project(p, projection).x == projection.metersPerLon * (q.x - p.x)
    ensures Project(q, projection).y - Project(p, projection).y == projection.metersPerLat * (q.y - p.y)
  {
  }

  /** The corners of a footprint in metres; a last corner on the first one is the same corner. */
  ghost predicate IsFootprint(points: seq<Point>, building: Building, projection: Projection) {
    var n := |points|;
    && n <= |building.points| <= n + 1
    && (forall i :: 0 <= i < n ==> points[i] == Project(building.points[i], projection))
    && (var closed := |building.points| >= 2
                      && var p, q := Project(building.points[0], projection), Project(building.points[|building.points| - 1], projection);
                         -0.000000001 < p.x - q.x < 0.000000001 && -0.000000001 < p.y - q.y < 0.000000001;
        n == if closed then |building.points| - 1 else |building.points|)
  }

  lemma FootprintOf(building: Building, projection: Projection)
    ensures IsFootprint(RemoveClosingPoint(ProjectAll(building.points, projection)), building, projection)
  {
    hide Project;
  }

  /** A footprint is kept if and only if it has three corners and the minimal area; it is listed counter-clockwise then. */
  lemma KeptExactlyIfLarge(building: Building, projection: Projection, points: seq<Point>)
    requires IsFootprint(points, building, projection)
    ensures ProjectBuilding(building, projection) != [] <==> |points| >= 3 && (SignedArea(points) >= 4.0 || SignedArea(points) <= -4.0)
    ensures ProjectBuilding(building, projection) != [] ==>
              ProjectBuilding(building, projection) == [Building(if SignedArea(points) > 0.0 then points else Reverse(points), building.height)]
  {
    hide Project, SignedArea;
    FootprintOf(building, projection);
    assert points == RemoveClosingPoint(ProjectAll(building.points, projection));
  }

  // ---------- Extrusion

  function Level(points: seq<Point>, z: real): (vs: seq<Vertex>)
    ensures |vs| == |points|
    ensures forall i :: 0 <= i < |points| ==> vs[i] == Vertex(points[i].x, points[i].y, z)
  {
    seq(|points|, i requires 0 <= i < |points| => Vertex(points[i].x, points[i].y, z))
  }

  /** The two triangles of the wall over the edge from corner `i`. */
  function Wall(base: nat, n: nat, i: nat): seq<Tri>
    requires i < n
  {
    var j := Wrap(i + 1, n);
    [Tri(base + i, base + j, base + n + j), Tri(base + i, base + n + j, base + n + i)]
  }

  function Walls(base: nat, n: nat, k: nat): seq<Tri>
    requires k <= n
  {
    if k == 0 then [] else Walls(base, n, k - 1) + Wall(base, n, k - 1)
  }

  /** A roof triangle and the floor triangle under it, which faces the other way. */
  function Cap(base: nat, n: nat, t: Tri): seq<Tri> {
    [Tri(base + n + t.a, base + n + t.b, base + n + t.c), Tri(base + t.c, base + t.b, base + t.a)]
  }

  function Caps(base: nat, n: nat, ts: seq<Tri>): seq<Tri> {
    if ts == [] then [] else Caps(base, n, ts[..|ts| - 1]) + Cap(base, n, ts[|ts| - 1])
  }

  function ExtrudedVertices(points: seq<Point>, height: real): seq<Vertex> {
    Level(points, 0.0) + Level(points, height)
  }

  function ExtrudedFaces(base: nat, points: seq<Point>): seq<Tri> {
    Walls(base, |points|, |points|) + Caps(base, |points|, Triangulate(points))
  }

  class Mesh {
    var vertices: seq<Vertex>
    var faces: seq<Tri>

    constructor ()
      ensures vertices == [] && faces == []
    {
      vertices, faces := [], [];
    }

    method AddLevel(points: seq<Point>, z: real)
      modifies this`vertices
      ensures vertices == old(vertices) + Level(points, z)
    {
      ghost var before := vertices;
      for i := 0 to |points|
        invariant vertices == before + Level(points, z)[..i]
      {
        vertices := vertices + [Vertex(points[i].x, points[i].y, z)];
      }
    }

    method AddWalls(base: nat, count: nat)
      modifies this`faces
      ensures faces == old(faces) + Walls(base, count, count)
    {
      ghost var before := faces;
      for index := 0 to count
        invariant faces == before + Walls(base, count, index)
      {
        WrapIsMod(index + 1, count);
        var next := (index + 1) % count;
        faces := faces + [Tri(base + index, base + next, base + count + next)];
        faces := faces + [Tri(base + index, base + count + next, base + count + index)];
        assert faces == before + Walls(base, count, index) + Wall(base, count, index);
      }
    }

    method AddCaps(base: nat, count: nat, triangles: seq<Tri>)
      modifies this`faces
      ensures faces == old(faces) + Caps(base, count, triangles)
    {
      ghost var before := faces;
      for k := 0 to |triangles|
        invariant faces == before + Caps(base, count, triangles[..k])
      {
        assert triangles[..k + 1][..k] == triangles[..k];
        var t := triangles[k];
        faces := faces + [Tri(base + count + t.a, base + count + t.b, base + count + t.c)];
        faces := faces + [Tri(base + t.c, base + t.b, base + t.a)];
      }
      assert triangles[..|triangles|] == triangles;
    }

    method AddExtrudedPolygon(points: seq<Point>, height: real)
      modifies this
      ensures vertices == old(vertices) + ExtrudedVertices(points, height)
      ensures faces == old(faces) + ExtrudedFaces(|old(vertices)|, points)
    {
      hide Level, Walls, Caps, Triangulate;
      var base, count := |vertices|, |points|;
      AddLevel(points, 0.0);
      AddLevel(points, height);
      AddWalls(base, count);
      var triangles := TriangulatePolygon(points);
      AddCaps(base, count, triangles);
    }
  }

  // ---------- The mesh of a list of buildings as a value

  function MeshVertices(buildings: seq<Building>): seq<Vertex> {
    if buildings == [] then []
    else
      var last := buildings[|buildings| - 1];
      MeshVertices(buildings[..|buildings| - 1]) + ExtrudedVertices(last.points, last.height)
  }

  function MeshFaces(buildings: seq<Building>): seq<Tri> {
    if buildings == [] then []
    else
      var rest := buildings[..|buildings| - 1];
      MeshFaces(rest) + ExtrudedFaces(|MeshVertices(rest)|, buildings[|buildings| - 1].points)
  }

  method BuildBuildingMesh(buildings: seq<Building>) returns (vertices: seq<Vertex>, faces: seq<Tri>)
    ensures vertices == MeshVertices(buildings) && faces == MeshFaces(buildings)
  {
    hide ExtrudedVertices, ExtrudedFaces;
    var mesh := new Mesh();
    for i := 0 to |buildings|
      invariant mesh.vertices == MeshVertices(buildings[..i]) && mesh.faces == MeshFaces(buildings[..i])
    {
      assert buildings[..i + 1][..i] == buildings[..i];
      mesh.AddExtrudedPolygon(buildings[i].points, buildings[i].height);
    }
    assert buildings[..|buildings|] == buildings;
    return mesh.vertices, mesh.faces;
  }

  predicate Polygons(buildings: seq<Building>) {
    forall i :: 0 <= i < |buildings| ==> |buildings[i].points| >= 3
  }

  // ---------- Watertightness

  /** The weight seen from indices shifted by `base`. */
  function Shifted(g: (nat, nat) -> real, base: nat): (nat, nat) -> real {
    (u: nat, v: nat) => g(base + u, base + v)
  }

  lemma ShiftedAntisymmetric(g: (nat, nat) -> real, base: nat)
    requires Antisymmetric(g)
    ensures Antisymmetric(Shifted(g, base))
  {
  }

  lemma ShiftedTerm(g: (nat, nat) -> real, base: nat, n: nat, i: nat)
    requires i < n
    ensures CycleTerms(Shifted(g, base), Iota(n), i + 1) ==
            CycleTerms(Shifted(g, base), Iota(n), i) + g(base + i, base + Wrap(i + 1, n))
  {
  }

  lemma {:induction false} WallsBoundary(g: (nat, nat) -> real, base: nat, n: nat, k: nat)
    requires Antisymmetric(g) && k <= n && n > 0
    ensures TriSum(g, Walls(base, n, k)) ==
            CycleTerms(Shifted(g, base), Iota(n), k) - CycleTerms(Shifted(g, base + n), Iota(n), k)
            + g(base + Wrap(k, n), base + n + Wrap(k, n)) - g(base, base + n)
  {
    hide CycleTerms, Shifted, Wall, TriSum, Antisymmetric;
    if k == 0 {
      NoWalls(g, base, n);
    } else {
      WallsBoundary(g, base, n, k - 1);
      TriSumConcat(g, Walls(base, n, k - 1), Wall(base, n, k - 1));
      WallBoundary(g, base, n, k - 1);
      ShiftedTerm(g, base, n, k - 1);
      ShiftedTerm(g, base + n, n, k - 1);
    }
  }

  lemma NoWalls(g: (nat, nat) -> real, base: nat, n: nat)
    ensures TriSum(g, Walls(base, n, 0)) == 0.0
    ensures forall f: (nat, nat) -> real :: CycleTerms(f, Iota(n), 0) == 0.0
  {
  }

  lemma TwoWeights(g: (nat, nat) -> real, s: Tri, t: Tri)
    ensures TriSum(g, [s, t]) == TriWeight(g, s) + TriWeight(g, t)
  {
    assert [s, t][1..] == [t] && [t][1..] == [];
    assert TriSum(g, [t]) == TriWeight(g, t) + TriSum(g, [t][1..]);
  }

  lemma WallBoundary(g: (nat, nat) -> real, base: nat, n: nat, i: nat)
    requires Antisymmetric(g) && i < n
    ensures var j := Wrap(i + 1, n);
            TriSum(g, Wall(base, n, i)) ==
            g(base + i, base + j) - g(base + n + i, base + n + j) + g(base + j, base + n + j) - g(base + i, base + n + i)
  {
    var j := Wrap(i + 1, n);
    TwoWeights(g, Wall(base, n, i)[0], Wall(base, n, i)[1]);
    assert g(base + n + j, base + i) == -g(base + i, base + n + j);
    assert g(base + n + j, base + n + i) == -g(base + n + i, base + n + j);
    assert g(base + n + i, base + i) == -g(base + i, base + n + i);
  }

  lemma CapBoundary(g: (nat, nat) -> real, base: nat, n: nat, t: Tri)
    requires Antisymmetric(g)
    ensures TriSum(g, Cap(base, n, t)) == TriWeight(Shifted(g, base + n), t) - TriWeight(Shifted(g, base), t)
  {
    TwoWeights(g, Cap(base, n, t)[0], Cap(base, n, t)[1]);
    assert g(base + t.b, base + t.a) == -g(base + t.a, base + t.b);
    assert g(base + t.c, base + t.b) == -g(base + t.b, base + t.c);
    assert g(base + t.a, base + t.c) == -g(base + t.c, base + t.a);
  }

  lemma TriSumLast(f: (nat, nat) -> real, ts: seq<Tri>)
    requires ts != []
    ensures TriSum(f, ts) == TriSum(f, ts[..|ts| - 1]) + TriWeight(f, ts[|ts| - 1])
  {
    var rest, t := ts[..|ts| - 1], ts[|ts| - 1];
    assert ts == rest + [t];
    TriSumConcat(f, rest, [t]);
    assert [t][1..] == [];
  }

  lemma {:induction false} CapsBoundary(g: (nat, nat) -> real, base: nat, n: nat, ts: seq<Tri>)
    requires Antisymmetric(g)
    ensures TriSum(g, Caps(base, n, ts)) == TriSum(Shifted(g, base + n), ts) - TriSum(Shifted(g, base), ts)
  {
    if ts != [] {
      hide TriWeight, Cap, Shifted;
      var rest, t := ts[..|ts| - 1], ts[|ts| - 1];
      CapsBoundary(g, base, n, rest);
      CapBoundary(g, base, n, t);
      TriSumConcat(g, Caps(base, n, rest), Cap(base, n, t));
      TriSumLast(Shifted(g, base + n), ts);
      TriSumLast(Shifted(g, base), ts);
    }
  }

  /** Walls and caps of one prism cancel under every antisymmetric weight: the prism is closed. */
  lemma PrismIsClosed(g: (nat, nat) -> real, base: nat, points: seq<Point>)
    requires Antisymmetric(g) && |points| >= 3
    ensures TriSum(g, ExtrudedFaces(base, points)) == 0.0
  {
    hide Triangulate, CycleTerms, CycleSum, TriSum, Walls, Caps, Shifted;
    var n := |points|;
    var low, high := Shifted(g, base), Shifted(g, base + n);
    ShiftedAntisymmetric(g, base);
    ShiftedAntisymmetric(g, base + n);
    WallsBoundary(g, base, n, n);
    TermsAreCycle(low, Iota(n));
    TermsAreCycle(high, Iota(n));
    CapsBoundary(g, base, n, Triangulate(points));
    TriangulationBoundary(low, points);
    TriangulationBoundary(high, points);
    TriSumConcat(g, Walls(base, n, n), Caps(base, n, Triangulate(points)));
  }

  lemma {:induction false} MeshIsClosed(g: (nat, nat) -> real, buildings: seq<Building>)
    requires Antisymmetric(g) && Polygons(buildings)
    ensures TriSum(g, MeshFaces(buildings)) == 0.0
  {
    if buildings != [] {
      var rest, points := buildings[..|buildings| - 1], buildings[|buildings| - 1].points;
      MeshIsClosed(g, rest);
      PrismIsClosed(g, |MeshVertices(rest)|, points);
      TriSumConcat(g, MeshFaces(rest), ExtrudedFaces(|MeshVertices(rest)|, points));
    }
  }

  /** Watertight: in the mesh every directed edge occurs exactly as often as its reverse. */
  lemma MeshIsWatertight(buildings: seq<Building>, u: nat, v: nat)
    requires Polygons(buildings)
    ensures EdgeCount(MeshFaces(buildings), u, v) == EdgeCount(MeshFaces(buildings), v, u)
  {
    EdgeWeightCounts(MeshFaces(buildings), u, v);
    MeshIsClosed(EdgeWeight(u, v), buildings);
  }

  // ---------- Indices

  predicate Within(ts: seq<Tri>, n: nat) {
    forall i :: 0 <= i < |ts| ==> ts[i].a < n && ts[i].b < n && ts[i].c < n
  }

  lemma {:induction false} WallsWithin(base: nat, n: nat, k: nat)
    requires k <= n
    ensures Within(Walls(base, n, k), base + 2 * n)
  {
    if k > 0 {
      WallsWithin(base, n, k - 1);
    }
  }

  lemma {:induction false} CapsWithin(base: nat, n: nat, ts: seq<Tri>)
    requires AllProper(ts, n)
    ensures Within(Caps(base, n, ts), base + 2 * n)
  {
    if ts != [] {
      CapsWithin(base, n, ts[..|ts| - 1]);
    }
  }

  lemma PrismWithin(base: nat, points: seq<Point>)
    requires |points| >= 3
    ensures Within(ExtrudedFaces(base, points), base + 2 * |points|)
  {
    TriangulationProper(points);
    WallsWithin(base, |points|, |points|);
    CapsWithin(base, |points|, Triangulate(points));
  }

  /** Every face index of the mesh names a vertex of the mesh. */
  lemma {:induction false} MeshIndicesAreValid(buildings: seq<Building>)
    requires Polygons(buildings)
    ensures Within(MeshFaces(buildings), |MeshVertices(buildings)|)
  {
    if buildings != [] {
      var rest := buildings[..|buildings| - 1];
      MeshIndicesAreValid(rest);
      PrismWithin(|MeshVertices(rest)|, buildings[|buildings| - 1].points);
    }
  }

  // ---------- Volume

  /** Six times the signed volume of the tetrahedron from the origin. */
  function Det(p: Vertex, q: Vertex, r: Vertex): real {
    p.x * (q.y * r.z - q.z * r.y) - p.y * (q.x * r.z - q.z * r.x) + p.z * (q.x * r.y - q.y * r.x)
  }

  /** Six times the signed volume that the faces enclose, by the divergence theorem. */
  function Volume6(vs: seq<Vertex>, ts: seq<Tri>): real
    requires Within(ts, |vs|)
  {
    if ts == [] then 0.0
    else
      var t := ts[|ts| - 1];
      Volume6(vs, ts[..|ts| - 1]) + Det(vs[t.a], vs[t.b], vs[t.c])
  }

  lemma {:induction false} Volume6Concat(vs: seq<Vertex>, s: seq<Tri>, t: seq<Tri>)
    requires Within(s, |vs|) && Within(t, |vs|)
    ensures Within(s + t, |vs|) && Volume6(vs, s + t) == Volume6(vs, s) + Volume6(vs, t)
  {
    if t == [] {
      assert s + t == s;
    } else {
      assert (s + t)[..|s + t| - 1] == s + t[..|t| - 1];
      Volume6Concat(vs, s, t[..|t| - 1]);
    }
  }

  lemma {:induction false} MoreVerticesSameVolume(vs: seq<Vertex>, more: seq<Vertex>, ts: seq<Tri>)
    requires Within(ts, |vs|)
    ensures Within(ts, |vs + more|) && Volume6(vs + more, ts) == Volume6(vs, ts)
  {
    if ts != [] {
      MoreVerticesSameVolume(vs, more, ts[..|ts| - 1]);
    }
  }

  lemma WallDets(p: Point, q: Point, h: real)
    ensures Det(Vertex(p.x, p.y, 0.0), Vertex(q.x, q.y, 0.0), Vertex(q.x, q.y, h)) == h * Wedge(p, q)
    ensures Det(Vertex(p.x, p.y, 0.0), Vertex(q.x, q.y, h), Vertex(p.x, p.y, h)) == h * Wedge(p, q)
  {
  }

  lemma CapDets(p: Point, q: Point, r: Point, h: real)
    ensures Det(Vertex(p.x, p.y, h), Vertex(q.x, q.y, h), Vertex(r.x, r.y, h)) ==
            h * (Wedge(p, q) + Wedge(q, r) + Wedge(r, p))
    ensures Det(Vertex(r.x, r.y, 0.0), Vertex(q.x, q.y, 0.0), Vertex(p.x, p.y, 0.0)) == 0.0
  {
  }

  /** The last vertices of `vs` are the two levels of the prism over `points`. */
  predicate EndsInPrism(vs: seq<Vertex>, base: nat, points: seq<Point>, h: real) {
    && |vs| == base + 2 * |points|
    && forall i :: 0 <= i < |points| ==>
         && vs[base + i] == Vertex(points[i].x, points[i].y, 0.0)
         && vs[base + |points| + i] == Vertex(points[i].x, points[i].y, h)
  }

  lemma TwoDets(vs: seq<Vertex>, s: Tri, t: Tri)
    requires s.a < |vs| && s.b < |vs| && s.c < |vs| && t.a < |vs| && t.b < |vs| && t.c < |vs|
    ensures Within([s, t], |vs|)
    ensures Volume6(vs, [s, t]) == Det(vs[s.a], vs[s.b], vs[s.c]) + Det(vs[t.a], vs[t.b], vs[t.c])
  {
    assert [s, t][..1] == [s] && [s][..0] == [];
    assert Volume6(vs, [s]) == Volume6(vs, [s][..0]) + Det(vs[s.a], vs[s.b], vs[s.c]);
  }

  lemma {:induction false} WallsVolume(vs: seq<Vertex>, base: nat, points: seq<Point>, h: real, k: nat)
    requires EndsInPrism(vs, base, points, h) && k <= |points|
    requires |vs| == base + 2 * |points|
    ensures Within(Walls(base, |points|, k), |vs|)
    ensures Volume6(vs, Walls(base, |points|, k)) == 2.0 * Times(h, CycleTerms(Wedge, points, k))
  {
    hide Wall, Wedge, Det, EndsInPrism, Times, Within;
    WallsWithin(base, |points|, k);
    TimesSum(h, 0.0, 0.0);
    if k > 0 {
      WallsVolume(vs, base, points, h, k - 1);
      WallVolume(vs, base, points, h, k - 1);
      Volume6Concat(vs, Walls(base, |points|, k - 1), Wall(base, |points|, k - 1));
      TimesSum(h, CycleTerms(Wedge, points, k - 1), Wedge(points[k - 1], points[Wrap(k, |points|)]));
    }
  }

  /** A product kept whole, so that sums of products stay sums to the solver. */
  function Times(h: real, x: real): real {
    h * x
  }

  lemma TimesSum(h: real, x: real, y: real)
    ensures Times(h, x + y) == Times(h, x) + Times(h, y)
    ensures Times(h, 0.0) == 0.0
  {
  }

  lemma WallVolume(vs: seq<Vertex>, base: nat, points: seq<Point>, h: real, i: nat)
    requires EndsInPrism(vs, base, points, h) && i < |points|
    ensures Within(Wall(base, |points|, i), |vs|)
    ensures Volume6(vs, Wall(base, |points|, i)) == 2.0 * Times(h, Wedge(points[i], points[Wrap(i + 1, |points|)]))
  {
    hide Det, Wedge, Volume6;
    var wall := Wall(base, |points|, i);
    WallDets(points[i], points[Wrap(i + 1, |points|)], h);
    TwoDets(vs, wall[0], wall[1]);
  }

  lemma CapVolume(vs: seq<Vertex>, base: nat, points: seq<Point>, h: real, t: Tri)
    requires EndsInPrism(vs, base, points, h) && ProperTriangle(t, |points|)
    ensures Within(Cap(base, |points|, t), |vs|)
    ensures Volume6(vs, Cap(base, |points|, t)) == Times(h, TriWeight(IndexWedge(points), t))
  {
    hide Det, Wedge, Volume6;
    var cap := Cap(base, |points|, t);
    var a, b, c := points[t.a], points[t.b], points[t.c];
    CapDets(a, b, c, h);
    assert TriWeight(IndexWedge(points), t) == Wedge(a, b) + Wedge(b, c) + Wedge(c, a);
    TwoDets(vs, cap[0], cap[1]);
  }

  lemma {:induction false} CapsVolume(vs: seq<Vertex>, base: nat, points: seq<Point>, h: real, ts: seq<Tri>)
    requires EndsInPrism(vs, base, points, h) && AllProper(ts, |points|)
    requires |vs| == base + 2 * |points|
    ensures Within(Caps(base, |points|, ts), |vs|)
    ensures Volume6(vs, Caps(base, |points|, ts)) == Times(h, TriSum(IndexWedge(points), ts))
  {
    hide Cap, Det, IndexWedge, TriWeight, EndsInPrism, Times, Within;
    CapsWithin(base, |points|, ts);
    TimesSum(h, 0.0, 0.0);
    if ts != [] {
      var rest, t := ts[..|ts| - 1], ts[|ts| - 1];
      CapsVolume(vs, base, points, h, rest);
      CapVolume(vs, base, points, h, t);
      Volume6Concat(vs, Caps(base, |points|, rest), Cap(base, |points|, t));
      TriSumLast(IndexWedge(points), ts);
      TimesSum(h, TriSum(IndexWedge(points), rest), TriWeight(IndexWedge(points), t));
    }
  }

  /** A prism's faces enclose its height times the signed area of its footprint. */
  lemma PrismVolume(vs: seq<Vertex>, base: nat, points: seq<Point>, h: real)
    requires EndsInPrism(vs, base, points, h) && |points| >= 3
    ensures Within(ExtrudedFaces(base, points), |vs|)
    ensures Volume6(vs, ExtrudedFaces(base, points)) == 6.0 * (h * SignedArea(points))
  {
    hide Triangulate, CycleTerms, CycleSum, TriSum, Walls, Caps, Volume6, IndexWedge, Within;
    var n := |points|;
    TriangulationProper(points);
    WallsVolume(vs, base, points, h, n);
    TermsAreCycle(Wedge, points);
    CapsVolume(vs, base, points, h, Triangulate(points));
    DoubleArea(points);
    Volume6Concat(vs, Walls(base, n, n), Caps(base, n, Triangulate(points)));
    assert h * (2.0 * SignedArea(points)) == 2.0 * (h * SignedArea(points));
  }

  lemma DoubleArea(points: seq<Point>)
    requires |points| >= 3
    ensures TriSum(IndexWedge(points), Triangulate(points)) == 2.0 * SignedArea(points)
  {
    TriangulationConservesArea(points);
    AreasAreWedges(points, Triangulate(points));
  }

  function TotalVolume(buildings: seq<Building>): real {
    if buildings == [] then 0.0
    else
      var last := buildings[|buildings| - 1];
      TotalVolume(buildings[..|buildings| - 1]) + last.height * SignedArea(last.points)
  }

  lemma AppendedPrism(vs: seq<Vertex>, points: seq<Point>, h: real)
    ensures EndsInPrism(vs + ExtrudedVertices(points, h), |vs|, points, h)
  {
  }

  /** Volume of a mesh after one more prism. */
  lemma VolumeGrows(vs: seq<Vertex>, faces: seq<Tri>, points: seq<Point>, h: real)
    requires Within(faces, |vs|) && |points| >= 3
    ensures var grown, more := vs + ExtrudedVertices(points, h), ExtrudedFaces(|vs|, points);
            && Within(faces + more, |grown|)
            && Volume6(grown, faces + more) == Volume6(vs, faces) + 6.0 * (h * SignedArea(points))
  {
    hide ExtrudedFaces, ExtrudedVertices, EndsInPrism, Volume6, SignedArea, Within;
    var grown := vs + ExtrudedVertices(points, h);
    AppendedPrism(vs, points, h);
    MoreVerticesSameVolume(vs, ExtrudedVertices(points, h), faces);
    PrismVolume(grown, |vs|, points, h);
    Volume6Concat(grown, faces, ExtrudedFaces(|vs|, points));
  }

  /** The mesh encloses the sum over all buildings of height times signed footprint area. */
  lemma {:induction false} MeshVolume(buildings: seq<Building>)
    requires Polygons(buildings)
    ensures Within(MeshFaces(buildings), |MeshVertices(buildings)|)
    ensures Volume6(MeshVertices(buildings), MeshFaces(buildings)) == 6.0 * TotalVolume(buildings)
  {
    hide ExtrudedFaces, ExtrudedVertices, SignedArea;
    if buildings != [] {
      hide Volume6, Within;
      var rest, last := buildings[..|buildings| - 1], buildings[|buildings| - 1];
      MeshVolume(rest);
      VolumeGrows(MeshVertices(rest), MeshFaces(rest), last.points, last.height);
    }
  }

  /**
    End to end: whatever footprints come in, the mesh of the projected ones is watertight, well indexed,
    and encloses at least ten cubic metres per building once every height is at least the source's
    minimum of 2.5 m.
  */
  lemma SceneMeshIsSound(buildings: seq<Building>, projection: Projection, u: nat, v: nat)
    requires forall i :: 0 <= i < |buildings| ==> buildings[i].height >= 2.5
    ensures var scene := ProjectBuildings(buildings, projection);
            && Polygons(scene)
            && EdgeCount(MeshFaces(scene), u, v) == EdgeCount(MeshFaces(scene), v, u)
            && Within(MeshFaces(scene), |MeshVertices(scene)|)
            && Volume6(MeshVertices(scene), MeshFaces(scene)) >= 6.0 * (10.0 * |scene| as real)
  {
    var scene := ProjectBuildings(buildings, projection);
    ProjectedBuildingsAreUsable(buildings, projection);
    HeightsSurvive(buildings, projection);
    MeshIsWatertight(scene, u, v);
    MeshVolume(scene);
    VolumeAtLeast(scene);
  }

  lemma {:induction false} HeightsSurvive(buildings: seq<Building>, projection: Projection)
    requires forall i :: 0 <= i < |buildings| ==> buildings[i].height >= 2.5
    ensures forall i :: 0 <= i < |ProjectBuildings(buildings, projection)| ==> ProjectBuildings(buildings, projection)[i].height >= 2.5
  {
    if buildings != [] {
      HeightsSurvive(buildings[..|buildings| - 1], projection);
    }
  }

  lemma {:induction false} VolumeAtLeast(scene: seq<Building>)
    requires forall i :: 0 <= i < |scene| ==> Usable(scene[i]) && scene[i].height >= 2.5
    ensures TotalVolume(scene) >= 10.0 * |scene| as real
  {
    if scene != [] {
      var last := scene[|scene| - 1];
      VolumeAtLeast(scene[..|scene| - 1]);
      RealMonotone(2.5, last.height, SignedArea(last.points));
    }
  }
}
