/**
  The diverse beam: the best-ranked node, then again and again the node farthest from those chosen.
  Source: backend/services/optimization_service.py
*/
module DiverseBeam {
  import opened Arithmetic
  import opened StableSort
  import opened AntennaSettings
  import opened CandidateRanking

  // ---------- Distance between settings

  function RealAbs(x: real): real {
    if x < 0.0 then -x else x
  }

  function Span(d: Dimension): int
    requires d.values != []
  {
    d.values[|d.values| - 1] - d.values[0]
  }

  ghost predicate Covers(settings: Settings, dims: seq<Dimension>) {
    forall i :: 0 <= i < |dims| ==> dims[i].id in settings && dims[i].values != [] && Span(dims[i]) >= 0
  }

  /** The part of one dimension; dimensions of a single value are skipped. */
  function FieldDistance(left: Settings, right: Settings, d: Dimension): real
    requires d.values != [] && Span(d) >= 0 && d.id in left && d.id in right
  {
    if Span(d) == 0 then 0.0
    else RealAbs((left[d.id].Get(d.field) - right[d.id].Get(d.field)) as real) / Span(d) as real
  }

  function SumDistance(left: Settings, right: Settings, dims: seq<Dimension>): real
    requires Covers(left, dims) && Covers(right, dims)
  {
    if dims == [] then 0.0
    else
      SumDistance(left, right, dims[..|dims| - 1]) + FieldDistance(left, right, dims[|dims| - 1])
  }

  function Distance(left: Settings, right: Settings, dims: seq<Dimension>): real
    requires Covers(left, dims) && Covers(right, dims)
  {
    if dims == [] then 0.0 else SumDistance(left, right, dims) / |dims| as real
  }

  method SettingsDistance(left: Settings, right: Settings, dims: seq<Dimension>) returns (distance: real)
    requires Covers(left, dims) && Covers(right, dims)
    ensures distance == Distance(left, right, dims)
  {
    if dims == [] {
      return 0.0;
    }
    distance := 0.0;
    for i := 0 to |dims|
      invariant distance == SumDistance(left, right, dims[..i])
    {
      assert dims[..i + 1][..i] == dims[..i];
      var d := dims[i];
      var span := d.values[|d.values| - 1] - d.values[0];
      if span == 0 {
        continue;
      }
      distance := distance + RealAbs((left[d.id].Get(d.field) - right[d.id].Get(d.field)) as real) / span as real;
    }
    assert dims[..|dims|] == dims;
    distance := distance / |dims| as real;
  }

  lemma DivideMonotone(x: real, y: real, z: real, c: real)
    requires c > 0.0 && 0.0 <= x <= y + z
    ensures 0.0 <= x / c <= y / c + z / c
  {
    DivideBack(x, c);
    DivideBack(y, c);
    DivideBack(z, c);
    RealDistribute(y / c, z / c, c);
    CancelFactor(x / c, y / c + z / c, c);
    CancelFactor(0.0, x / c, c);
  }

  lemma FieldMetric(a: Settings, b: Settings, c: Settings, d: Dimension)
    requires d.values != [] && Span(d) >= 0 && d.id in a && d.id in b && d.id in c
    ensures FieldDistance(a, b, d) == FieldDistance(b, a, d)
    ensures 0.0 <= FieldDistance(a, c, d) <= FieldDistance(a, b, d) + FieldDistance(b, c, d)
    ensures FieldDistance(a, a, d) == 0.0
  {
    if Span(d) != 0 {
      var x, y, z := a[d.id].Get(d.field), b[d.id].Get(d.field), c[d.id].Get(d.field);
      DivideMonotone(RealAbs((x - z) as real), RealAbs((x - y) as real), RealAbs((y - z) as real), Span(d) as real);
      assert RealAbs((x - y) as real) == RealAbs((y - x) as real);
      assert RealAbs((x - x) as real) == 0.0;
    }
  }

  lemma {:induction false} SumMetric(a: Settings, b: Settings, c: Settings, dims: seq<Dimension>)
    requires Covers(a, dims) && Covers(b, dims) && Covers(c, dims)
    ensures SumDistance(a, b, dims) == SumDistance(b, a, dims)
    ensures 0.0 <= SumDistance(a, c, dims) <= SumDistance(a, b, dims) + SumDistance(b, c, dims)
    ensures SumDistance(a, a, dims) == 0.0
  {
    hide FieldDistance;
    if dims != [] {
      SumMetric(a, b, c, dims[..|dims| - 1]);
      FieldMetric(a, b, c, dims[|dims| - 1]);
    }
  }

  /** The distance is a pseudometric: symmetric, never negative, zero to itself, and no detour is shorter. */
  lemma DistanceIsMetric(a: Settings, b: Settings, c: Settings, dims: seq<Dimension>)
    requires Covers(a, dims) && Covers(b, dims) && Covers(c, dims)
    ensures Distance(a, b, dims) == Distance(b, a, dims)
    ensures 0.0 <= Distance(a, c, dims) <= Distance(a, b, dims) + Distance(b, c, dims)
    ensures Distance(a, a, dims) == 0.0
  {
    hide SumDistance;
    SumMetric(a, b, c, dims);
    if dims != [] {
      DivideMonotone(SumDistance(a, c, dims), SumDistance(a, b, dims), SumDistance(b, c, dims), |dims| as real);
    }
  }

  lemma FieldShare(a: Settings, b: Settings, d: Dimension)
    requires d.values != [] && Span(d) >= 0 && d.id in a && d.id in b
    ensures var (x, y) := (a[d.id].Get(d.field), b[d.id].Get(d.field));
            && FieldDistance(a, b, d) * Span(d) as real == (if Span(d) == 0 then 0 else if x < y then y - x else x - y) as real
            && (d.values[0] <= x <= d.values[|d.values| - 1] && d.values[0] <= y <= d.values[|d.values| - 1] ==> FieldDistance(a, b, d) <= 1.0)
  {
    var x, y := a[d.id].Get(d.field), b[d.id].Get(d.field);
    assert RealAbs((x - y) as real) == (if x < y then y - x else x - y) as real;
    if Span(d) > 0 {
      ShareOfSpan(RealAbs((x - y) as real), Span(d) as real);
    }
  }

  lemma ShareOfSpan(difference: real, span: real)
    requires span > 0.0
    ensures (difference / span) * span == difference
    ensures difference <= span ==> difference / span <= 1.0
  {
    DivideBack(difference, span);
    CancelFactor(difference / span, 1.0, span);
  }

  lemma {:induction false} SumOfOne(a: Settings, b: Settings, dims: seq<Dimension>, i: nat)
    requires Covers(a, dims) && Covers(b, dims) && i < |dims|
    requires forall k :: 0 <= k < |dims| && k != i ==> a[dims[k].id].Get(dims[k].field) == b[dims[k].id].Get(dims[k].field)
    ensures SumDistance(a, b, dims) == FieldDistance(a, b, dims[i])
  {
    var n := |dims| - 1;
    if i < n {
      SumOfOne(a, b, dims[..n], i);
      assert RealAbs(0.0) == 0.0;
      SameField(a, b, dims[n]);
    } else {
      SumOfNone(a, b, dims[..n]);
    }
  }

  lemma SameField(a: Settings, b: Settings, d: Dimension)
    requires d.values != [] && Span(d) >= 0 && d.id in a && d.id in b && a[d.id].Get(d.field) == b[d.id].Get(d.field)
    ensures FieldDistance(a, b, d) == 0.0
  {
  }

  lemma {:induction false} SumOfNone(a: Settings, b: Settings, dims: seq<Dimension>)
    requires Covers(a, dims) && Covers(b, dims)
    requires forall k :: 0 <= k < |dims| ==> a[dims[k].id].Get(dims[k].field) == b[dims[k].id].Get(dims[k].field)
    ensures SumDistance(a, b, dims) == 0.0
  {
    if dims != [] {
      SumOfNone(a, b, dims[..|dims| - 1]);
      SameField(a, b, dims[|dims| - 1]);
    }
  }

  /** Settings that differ in one dimension are that difference apart, as a share of its range and of all dimensions. */
  lemma OneFieldApart(a: Settings, b: Settings, dims: seq<Dimension>, i: nat)
    requires Covers(a, dims) && Covers(b, dims) && i < |dims| && Span(dims[i]) > 0
    requires forall k :: 0 <= k < |dims| && k != i ==> a[dims[k].id].Get(dims[k].field) == b[dims[k].id].Get(dims[k].field)
    ensures var (x, y) := (a[dims[i].id].Get(dims[i].field), b[dims[i].id].Get(dims[i].field));
            (Distance(a, b, dims) * |dims| as real) * Span(dims[i]) as real == (if x < y then y - x else x - y) as real
  {
    hide SumDistance, FieldDistance;
    SumOfOne(a, b, dims, i);
    FieldShare(a, b, dims[i]);
    DivideBack(SumDistance(a, b, dims), |dims| as real);
  }

  /** In every dimension `c` agrees with `a` or with `b`. */
  ghost predicate Mixes(c: Settings, a: Settings, b: Settings, dims: seq<Dimension>)
    requires Covers(a, dims) && Covers(b, dims) && Covers(c, dims)
  {
    forall k :: 0 <= k < |dims| ==>
      var field, id := dims[k].field, dims[k].id;
      c[id].Get(field) == a[id].Get(field) || c[id].Get(field) == b[id].Get(field)
  }

  lemma {:induction false} SumsAdd(a: Settings, b: Settings, c: Settings, dims: seq<Dimension>)
    requires Covers(a, dims) && Covers(b, dims) && Covers(c, dims) && Mixes(c, a, b, dims)
    ensures SumDistance(a, b, dims) == SumDistance(a, c, dims) + SumDistance(c, b, dims)
  {
    if dims != [] {
      SumsAdd(a, b, c, dims[..|dims| - 1]);
    }
  }

  /**
    Dimensions contribute independently: moving some of them first and the others then covers the whole
    distance. With `OneFieldApart` this determines the distance.
  */
  lemma DistancesAdd(a: Settings, b: Settings, c: Settings, dims: seq<Dimension>)
    requires Covers(a, dims) && Covers(b, dims) && Covers(c, dims) && Mixes(c, a, b, dims)
    ensures Distance(a, b, dims) == Distance(a, c, dims) + Distance(c, b, dims)
  {
    hide SumDistance, Mixes;
    SumsAdd(a, b, c, dims);
    if dims != [] {
      QuotientsAdd(SumDistance(a, c, dims), SumDistance(c, b, dims), |dims| as real);
    }
  }

  lemma QuotientsAdd(x: real, y: real, n: real)
    requires n > 0.0
    ensures (x + y) / n == x / n + y / n
  {
    DivideBack(x + y, n);
    DivideBack(x, n);
    DivideBack(y, n);
    RealDistribute(x / n, y / n, n);
    CancelFactor((x + y) / n, x / n + y / n, n);
    CancelFactor(x / n + y / n, (x + y) / n, n);
  }

  // ---------- Selection

  ghost predicate AllCovered(nodes: seq<Node>, dims: seq<Dimension>) {
    forall node :: node in nodes ==> Covers(node.trial.candidate.settings, dims)
  }

  function Between(a: Node, b: Node, dims: seq<Dimension>): real
    requires Covers(a.trial.candidate.settings, dims) && Covers(b.trial.candidate.settings, dims)
  {
    Distance(a.trial.candidate.settings, b.trial.candidate.settings, dims)
  }

  lemma BetweenIsMetric(a: Node, b: Node, c: Node, dims: seq<Dimension>)
    requires AllCovered([a, b, c], dims)
    ensures Covers(a.trial.candidate.settings, dims) && Covers(b.trial.candidate.settings, dims) && Covers(c.trial.candidate.settings, dims)
    ensures Between(a, b, dims) == Between(b, a, dims)
    ensures 0.0 <= Between(a, c, dims) <= Between(a, b, dims) + Between(b, c, dims)
    ensures Between(a, a, dims) == 0.0
  {
    assert a in [a, b, c] && b in [a, b, c] && c in [a, b, c];
    DistanceIsMetric(a.trial.candidate.settings, b.trial.candidate.settings, c.trial.candidate.settings, dims);
  }

  /** All pairs lie at least `r` apart. */
  ghost predicate Separated(nodes: seq<Node>, r: real, dims: seq<Dimension>)
    requires AllCovered(nodes, dims)
  {
    forall i, j :: 0 <= i < j < |nodes| ==> Between(nodes[i], nodes[j], dims) >= r
  }

  /** `v` is the distance from `p` to the nearest of the chosen nodes. */
  ghost predicate IsNearest(p: Node, chosen: seq<Node>, v: real, dims: seq<Dimension>)
    requires AllCovered(chosen, dims) && Covers(p.trial.candidate.settings, dims)
  {
    && (forall k :: 0 <= k < |chosen| ==> v <= Between(p, chosen[k], dims))
    && (exists k :: 0 <= k < |chosen| && v == Between(p, chosen[k], dims))
  }

  method NearestDistance(p: Node, chosen: seq<Node>, dims: seq<Dimension>) returns (v: real)
    requires AllCovered(chosen, dims) && Covers(p.trial.candidate.settings, dims) && chosen != []
    ensures IsNearest(p, chosen, v, dims)
  {
    v := SettingsDistance(p.trial.candidate.settings, chosen[0].trial.candidate.settings, dims);
    for i := 1 to |chosen|
      invariant forall k :: 0 <= k < i ==> v <= Between(p, chosen[k], dims)
      invariant exists k :: 0 <= k < i && v == Between(p, chosen[k], dims)
    {
      var d := SettingsDistance(p.trial.candidate.settings, chosen[i].trial.candidate.settings, dims);
      if d < v {
        v := d;
      }
    }
  }

  /** Within `m` of one of the centres. */
  ghost predicate Near(p: Node, centers: seq<Node>, m: real, dims: seq<Dimension>)
    requires AllCovered(centers, dims) && Covers(p.trial.candidate.settings, dims)
  {
    exists k :: 0 <= k < |centers| && Between(p, centers[k], dims) <= m
  }

  ghost predicate Nearer(p: Node, centers: seq<Node>, m: real, dims: seq<Dimension>)
    requires AllCovered(centers, dims) && Covers(p.trial.candidate.settings, dims)
  {
    exists k :: 0 <= k < |centers| && Between(p, centers[k], dims) < m
  }

  /** The first of the nodes farthest from the chosen ones. */
  method Farthest(pool: seq<Node>, chosen: seq<Node>, dims: seq<Dimension>) returns (best: nat, v: real)
    requires pool != [] && chosen != [] && AllCovered(pool, dims) && AllCovered(chosen, dims)
    ensures best < |pool| && IsNearest(pool[best], chosen, v, dims)
    ensures forall p :: p in pool ==> Near(p, chosen, v, dims)
    ensures forall i :: 0 <= i < best ==> Nearer(pool[i], chosen, v, dims)
  {
    hide Between, Covers;
    best := 0;
    v := NearestDistance(pool[0], chosen, dims);
    for i := 1 to |pool|
      invariant best < i && IsNearest(pool[best], chosen, v, dims)
      invariant forall j :: 0 <= j < i ==> Near(pool[j], chosen, v, dims)
      invariant forall j :: 0 <= j < best ==> Nearer(pool[j], chosen, v, dims)
    {
      var d := NearestDistance(pool[i], chosen, dims);
      if d > v {
        forall j | 0 <= j < i ensures Near(pool[j], chosen, d, dims) && Nearer(pool[j], chosen, d, dims) {
          var k :| 0 <= k < |chosen| && Between(pool[j], chosen[k], dims) <= v;
        }
        best, v := i, d;
      }
    }
  }

  /** What the greedy choice has achieved once two nodes are chosen. */
  ghost predicate Greedy(selected: seq<Node>, pool: seq<Node>, m: real, dims: seq<Dimension>)
    requires AllCovered(selected, dims) && AllCovered(pool, dims)
  {
    |selected| >= 2 ==>
      && Separated(selected, m, dims)
      && (forall p :: p in pool ==> Near(p, selected[..|selected| - 1], m, dims))
      && Near(selected[|selected| - 1], selected[..|selected| - 1], m, dims)
  }

  lemma GreedyStep(selected: seq<Node>, pool: seq<Node>, m: real, best: nat, v: real, dims: seq<Dimension>)
    requires AllCovered(selected, dims) && AllCovered(pool, dims) && Greedy(selected, pool, m, dims) && selected != []
    requires best < |pool| && IsNearest(pool[best], selected, v, dims)
    requires forall p :: p in pool ==> Near(p, selected, v, dims)
    ensures AllCovered(selected + [pool[best]], dims) && AllCovered(pool[..best] + pool[best + 1..], dims)
    ensures Greedy(selected + [pool[best]], pool[..best] + pool[best + 1..], v, dims)
  {
    hide Between, Covers;
    var chosen := selected + [pool[best]];
    var n := |selected|;
    assert chosen[..n] == selected;
    assert pool[best] in pool;
    if n >= 2 {
      var k :| 0 <= k < |selected[..n - 1]| && Between(pool[best], selected[..n - 1][k], dims) <= m;
      assert v <= Between(pool[best], selected[k], dims);
    }
    forall i, j | 0 <= i < j < |chosen| ensures Between(chosen[i], chosen[j], dims) >= v {
      if j == n {
        assert selected[i] in selected;
        assert AllCovered([pool[best], selected[i], selected[i]], dims);
        BetweenIsMetric(pool[best], selected[i], selected[i], dims);
      }
    }
  }

  /** The best-ranked nodes, ten for each place in the beam. */
  function BeamPool(ranked: seq<Node>, beamWidth: nat): (pool: seq<Node>)
    ensures pool <= ranked && |pool| <= 10 * beamWidth
    ensures |pool| < 10 * beamWidth ==> pool == ranked
  {
    if |ranked| <= beamWidth * 10 then ranked else ranked[..beamWidth * 10]
  }

  /** All pairs are at least `m` apart, and all nodes of the pool within `m` of the chosen ones but the last. */
  ghost predicate Spread(selected: seq<Node>, pool0: seq<Node>, m: real, dims: seq<Dimension>)
    requires AllCovered(selected, dims) && AllCovered(pool0, dims) && |selected| >= 2
  {
    && Separated(selected, m, dims)
    && forall p :: p in pool0 ==> Near(p, selected[..|selected| - 1], m, dims)
  }

  /** All nodes in rank order if they fit; otherwise the best one and others of the pool, spread as the greedy choice achieves. */
  ghost predicate IsDiverseBeam(nodes: seq<Node>, beamWidth: nat, dims: seq<Dimension>, selected: seq<Node>) {
    var ranked := SortBy(nodes, NodeLeq());
    var pool := BeamPool(ranked, beamWidth);
    && |ranked| == |nodes|
    && (|nodes| <= beamWidth ==> selected == ranked)
    && (|nodes| > beamWidth ==>
          && |selected| == beamWidth > 0 && selected[0] == ranked[0] && multiset(selected) <= multiset(pool)
          && AllCovered(selected, dims) && AllCovered(pool, dims)
          && (beamWidth >= 2 ==> exists m :: Spread(selected, pool, m, dims)))
  }

  /** The beam starts with a node that no other one ranks before, and no node left out of the pool ranks before one in it. */
  lemma BeamPrefersRank(nodes: seq<Node>, beamWidth: nat, dims: seq<Dimension>, selected: seq<Node>)
    requires IsDiverseBeam(nodes, beamWidth, dims, selected) && nodes != []
    ensures selected != [] && forall node :: node in nodes ==> !RankLess(node.rank, selected[0].rank)
    ensures forall i, j :: 0 <= i < |BeamPool(SortBy(nodes, NodeLeq()), beamWidth)| <= j < |SortBy(nodes, NodeLeq())| ==>
              !RankLess(SortBy(nodes, NodeLeq())[j].rank, BeamPool(SortBy(nodes, NodeLeq()), beamWidth)[i].rank)
  {
    hide SortBy, Spread, RankLess;
    var ranked := SortBy(nodes, NodeLeq());
    NodeLeqTotal();
    SortIsSorted(nodes, NodeLeq());
    forall i, j | 0 <= i < j < |ranked| ensures !RankLess(ranked[j].rank, ranked[i].rank) {
      assert NodeLeq()(ranked[i], ranked[j]);
    }
    forall node | node in nodes ensures !RankLess(node.rank, ranked[0].rank) {
      assert node in multiset(ranked);
      var j :| 0 <= j < |ranked| && ranked[j] == node;
      RankIsTotalOrder(node.rank, node.rank, node.rank);
    }
  }

  /** `select_diverse_beam`, with the pool it chooses from and the separation it reaches. */
  method SelectDiverseBeam(nodes: seq<Node>, beamWidth: nat, dims: seq<Dimension>)
    returns (selected: seq<Node>, ghost pool0: seq<Node>, ghost m: real)
    requires beamWidth >= 1 && AllCovered(nodes, dims)
    ensures AllCovered(selected, dims) && AllCovered(pool0, dims)
    ensures |SortBy(nodes, NodeLeq())| == |nodes|
    ensures |nodes| <= beamWidth ==> selected == SortBy(nodes, NodeLeq())
    ensures |nodes| > beamWidth ==>
              && |selected| == beamWidth
              && pool0 == BeamPool(SortBy(nodes, NodeLeq()), beamWidth)
              && selected[0] == SortBy(nodes, NodeLeq())[0]
              && multiset(selected) <= multiset(pool0)
              && (beamWidth >= 2 ==> Spread(selected, pool0, m, dims))
    ensures multiset(selected) <= multiset(nodes)
    ensures IsDiverseBeam(nodes, beamWidth, dims, selected)
  {
    hide Between, Covers, SortBy;
    NodeLeqTotal();
    SortIsSorted(nodes, NodeLeq());
    var ranked := SortBy(nodes, NodeLeq());
    CoveredSorted(nodes, ranked, dims);
    m := 0.0;
    if |ranked| <= beamWidth {
      pool0 := ranked;
      selected := ranked;
      return;
    }
    var pool := ranked[..if |ranked| <= beamWidth * 10 then |ranked| else beamWidth * 10];
    assert ranked[..|ranked|] == ranked;
    pool0 := pool;
    PrefixMultiset(ranked, |pool|);
    selected, pool := [pool[0]], pool[1..];
    assert pool0 == selected + pool;
    while |pool| > 0 && |selected| < beamWidth
      invariant 1 <= |selected| <= beamWidth && |selected| + |pool| == |pool0|
      invariant multiset(selected) + multiset(pool) == multiset(pool0)
      invariant selected[0] == ranked[0]
      invariant AllCovered(selected, dims) && AllCovered(pool, dims) && Greedy(selected, pool, m, dims)
      decreases |pool|
    {
      var best, v := Farthest(pool, selected, dims);
      GreedyStep(selected, pool, m, best, v, dims);
      RemoveMultiset(selected, pool, best);
      m := v;
      selected, pool := selected + [pool[best]], pool[..best] + pool[best + 1..];
    }
    if beamWidth >= 2 {
      GreedyCovers(selected, pool, pool0, m, dims);
    }
  }

  lemma CoveredSorted(nodes: seq<Node>, ranked: seq<Node>, dims: seq<Dimension>)
    requires multiset(nodes) == multiset(ranked) && AllCovered(nodes, dims)
    ensures AllCovered(ranked, dims)
  {
    forall node | node in ranked ensures Covers(node.trial.candidate.settings, dims) {
      assert node in multiset(ranked);
      assert node in nodes;
    }
  }

  lemma PrefixMultiset(s: seq<Node>, n: nat)
    requires n <= |s|
    ensures multiset(s[..n]) <= multiset(s)
  {
    assert s == s[..n] + s[n..];
  }

  lemma RemoveMultiset(selected: seq<Node>, pool: seq<Node>, best: nat)
    requires best < |pool|
    ensures multiset(selected + [pool[best]]) + multiset(pool[..best] + pool[best + 1..]) == multiset(selected) + multiset(pool)
  {
    assert pool == pool[..best] + [pool[best]] + pool[best + 1..];
  }

  lemma GreedyCovers(selected: seq<Node>, pool: seq<Node>, pool0: seq<Node>, m: real, dims: seq<Dimension>)
    requires AllCovered(selected, dims) && AllCovered(pool, dims) && AllCovered(pool0, dims)
    requires |selected| >= 2 && Greedy(selected, pool, m, dims)
    requires multiset(selected) + multiset(pool) == multiset(pool0)
    ensures Spread(selected, pool0, m, dims)
  {
    var n := |selected| - 1;
    var centers := selected[..n];
    forall p | p in pool0 ensures Near(p, centers, m, dims) {
      assert p in multiset(pool0);
      if p !in pool {
        assert p in selected;
        var i :| 0 <= i < |selected| && selected[i] == p;
        if i < n {
          BetweenIsMetric(p, p, p, dims);
          NonNegative(selected, m, dims);
          assert Between(p, centers[i], dims) <= m;
        }
      }
    }
  }

  lemma NonNegative(selected: seq<Node>, m: real, dims: seq<Dimension>)
    requires AllCovered(selected, dims) && |selected| >= 2
    requires Near(selected[|selected| - 1], selected[..|selected| - 1], m, dims)
    ensures m >= 0.0
  {
    var n := |selected| - 1;
    var k :| 0 <= k < n && Between(selected[n], selected[..n][k], dims) <= m;
    assert AllCovered([selected[n], selected[k], selected[k]], dims);
    BetweenIsMetric(selected[n], selected[k], selected[k], dims);
  }

  // ---------- The diversity guarantee

  lemma {:induction false} Pigeonhole(f: seq<nat>, holes: nat) returns (a: nat, b: nat)
    requires |f| > holes && forall i :: 0 <= i < |f| ==> f[i] < holes
    ensures a < b < |f| && f[a] == f[b]
    decreases holes
  {
    var last := f[|f| - 1];
    if i :| 0 <= i < |f| - 1 && f[i] == last {
      a, b := i, |f| - 1;
    } else {
      var g := seq(|f| - 1, i requires 0 <= i < |f| - 1 => if f[i] > last then f[i] - 1 else f[i]);
      a, b := Pigeonhole(g, holes - 1);
    }
  }

  /**
    Whatever separation `r` any `beamWidth` nodes of the pool have, the selected ones have at least
    half of it: among that many nodes, two share a nearest centre.
  */
  lemma DiversityGuarantee(selected: seq<Node>, pool0: seq<Node>, m: real, others: seq<Node>, r: real, dims: seq<Dimension>)
    requires AllCovered(selected, dims) && AllCovered(pool0, dims) && |selected| >= 2
    requires Spread(selected, pool0, m, dims)
    requires |others| == |selected| && forall p :: p in others ==> p in pool0
    ensures AllCovered(others, dims)
    ensures Separated(others, r, dims) ==> Separated(selected, r / 2.0, dims)
  {
    hide Between, Covers;
    var centers := selected[..|selected| - 1];
    if Separated(others, r, dims) {
      var f := CentersOf(others, centers, m, dims);
      var a, b := Pigeonhole(f, |centers|);
      var c := centers[f[a]];
      assert others[a] in others && others[b] in others && c in selected;
      assert AllCovered([others[a], c, others[b]], dims) && AllCovered([others[b], c, c], dims);
      BetweenIsMetric(others[a], c, others[b], dims);
      BetweenIsMetric(others[b], c, c, dims);
      assert r <= Between(others[a], others[b], dims) <= m + m;
    }
  }

  lemma {:induction false} CentersOf(others: seq<Node>, centers: seq<Node>, m: real, dims: seq<Dimension>) returns (f: seq<nat>)
    requires AllCovered(others, dims) && AllCovered(centers, dims)
    requires forall p :: p in others ==> Near(p, centers, m, dims)
    ensures |f| == |others|
    ensures forall i :: 0 <= i < |f| ==> f[i] < |centers| && Between(others[i], centers[f[i]], dims) <= m
  {
    f := [];
    if others != [] {
      var n := |others| - 1;
      var rest := CentersOf(others[..n], centers, m, dims);
      assert others[n] in others;
      var k: nat :| k < |centers| && Between(others[n], centers[k], dims) <= m;
      f := rest + [k];
    }
  }

  /** If the beam was cut down to its width, it has at least half of whatever separation that many nodes of its pool have. */
  ghost predicate HalfAsSpread(nodes: seq<Node>, selected: seq<Node>, beamWidth: nat, dims: seq<Dimension>) {
    |nodes| > beamWidth ==>
      && |selected| == beamWidth && AllCovered(selected, dims)
      && forall others: seq<Node>, r: real ::
           && |others| == beamWidth && AllCovered(others, dims)
           && (forall p :: p in others ==> p in BeamPool(SortBy(nodes, NodeLeq()), beamWidth))
           && Separated(others, r, dims)
           ==> Separated(selected, r / 2.0, dims)
  }

  lemma DiverseBeamIsSpread(nodes: seq<Node>, beamWidth: nat, dims: seq<Dimension>, selected: seq<Node>)
    requires beamWidth >= 2 && IsDiverseBeam(nodes, beamWidth, dims, selected)
    ensures HalfAsSpread(nodes, selected, beamWidth, dims)
  {
    hide SortBy, BeamPool, Spread, Separated, AllCovered;
    if |nodes| > beamWidth {
      var pool := BeamPool(SortBy(nodes, NodeLeq()), beamWidth);
      var m :| Spread(selected, pool, m, dims);
      forall others: seq<Node>, r: real
        | && |others| == beamWidth && AllCovered(others, dims)
          && (forall p :: p in others ==> p in pool) && Separated(others, r, dims)
        ensures Separated(selected, r / 2.0, dims)
      {
        DiversityGuarantee(selected, pool, m, others, r, dims);
      }
    }
  }
}
