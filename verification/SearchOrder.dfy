/**
  The order in which the search visits settings: what of a list of points is chosen, how a parent's
  mutations are listed and turned, and which values a sample selects.
  Source: backend/services/optimization_service.py
*/
module SearchOrder {
  import opened Arithmetic
  import opened AntennaSettings
  import opened SearchGrid
  import opened Candidates
  import opened CandidateGenerators
  import Halton

  // ---------- The chosen points

  /** Where `s` occurs first. */
  function FirstAt(points: seq<Settings>, s: Settings): (i: nat)
    ensures i <= |points| && (i < |points| <==> s in points)
    ensures i < |points| ==> points[i] == s
    ensures forall j :: 0 <= j < i ==> points[j] != s
  {
    if points == [] then 0
    else if points[0] == s then 0
    else 1 + FirstAt(points[1..], s)
  }

  lemma FirstAtIs(points: seq<Settings>, s: Settings, i: nat)
    requires i < |points| && points[i] == s && forall j :: 0 <= j < i ==> points[j] != s
    ensures FirstAt(points, s) == i
  {
  }

  lemma {:induction false} ChosenMembers(points: seq<Settings>, before: set<Settings>, space: SearchSpace)
    requires Valid(space)
    ensures forall s :: s in Chosen(points, before, space) <==> s in points && s !in before && Admissible(s, space)
  {
    hide Valid, Admissible;
    if points != [] {
      var n := |points| - 1;
      ChosenMembers(points[..n], before, space);
      assert forall s :: s in points <==> s in points[..n] || s == points[n];
    }
  }

  lemma FirstAtInPrefix(points: seq<Settings>, n: nat, s: Settings)
    requires n <= |points| && s in points[..n]
    ensures FirstAt(points, s) == FirstAt(points[..n], s) < n
  {
    hide FirstAt;
    var i := FirstAt(points[..n], s);
    assert forall j :: 0 <= j <= i ==> points[j] == points[..n][j];
    FirstAtIs(points, s, i);
  }

  ghost predicate InPointOrder(points: seq<Settings>, chosen: seq<Settings>) {
    forall i, j :: 0 <= i < j < |chosen| ==> FirstAt(points, chosen[i]) < FirstAt(points, chosen[j])
  }

  /** Chosen are exactly the points that are new and admissible, once each, in the order of their first occurrence. */
  lemma {:induction false} ChosenAreFirstNew(points: seq<Settings>, before: set<Settings>, space: SearchSpace)
    requires Valid(space)
    ensures forall s :: s in Chosen(points, before, space) <==> s in points && s !in before && Admissible(s, space)
    ensures InPointOrder(points, Chosen(points, before, space))
  {
    hide Valid, Admissible, FirstAt;
    ChosenMembers(points, before, space);
    if points != [] {
      var n := |points| - 1;
      ChosenAreFirstNew(points[..n], before, space);
      var early, chosen := Chosen(points[..n], before, space), Chosen(points, before, space);
      forall i, j | 0 <= i < j < |chosen| ensures FirstAt(points, chosen[i]) < FirstAt(points, chosen[j]) {
        assert chosen[i] == early[i] && early[i] in early;
        FirstAtInPrefix(points, n, early[i]);
        if j < |early| {
          assert chosen[j] == early[j] && early[j] in early;
          FirstAtInPrefix(points, n, early[j]);
        } else {
          assert chosen[j] == points[n] && points[n] !in points[..n];
          FirstAtIs(points, points[n], n);
        }
      }
    }
  }

  // ---------- A parent's mutations

  /** Nearer rings come first. */
  lemma {:induction false} NearbyGrows(values: seq<int>, at: nat, r: nat, radius: nat)
    requires r <= radius
    ensures Nearby(values, at, r) <= Nearby(values, at, radius)
    decreases radius
  {
    if r < radius {
      NearbyGrows(values, at, r, radius - 1);
    }
  }

  /** In a ring the value above comes before the value below. */
  lemma AboveBeforeBelow(values: seq<int>, at: nat, radius: nat)
    requires at < |values| && radius >= 1
    ensures var inner, ring := Nearby(values, at, radius - 1), Nearby(values, at, radius);
            && (at + radius < |values| ==> |ring| > |inner| && ring[|inner|] == values[at + radius])
            && (at >= radius ==> |ring| > |inner| && ring[|ring| - 1] == values[at - radius])
            && |ring| == |inner| + (if at + radius < |values| then 1 else 0) + (if at >= radius then 1 else 0)
  {
  }

  /** The mutations with the u-th value of a dimension come before all those with later values. */
  lemma {:induction false} ColumnsGrow(dims: seq<Dimension>, lists: seq<seq<int>>, c: nat, columns: nat)
    requires |lists| == |dims| && c <= columns
    ensures Columns(dims, lists, c) <= Columns(dims, lists, columns)
    ensures forall m :: m in Columns(dims, lists, c) <==> exists i: nat, u: nat :: u < c && AtPlace(m, dims, lists, i, u)
    decreases columns
  {
    hide Column, AtPlace;
    forall m ensures m in Columns(dims, lists, c) <==> exists i: nat, u: nat :: u < c && AtPlace(m, dims, lists, i, u) {
      InColumns(dims, lists, c, m);
    }
    if c < columns {
      ColumnsGrow(dims, lists, c, columns - 1);
    }
  }

  /** Among mutations with the same place in their lists, those of earlier dimensions come first. */
  lemma {:induction false} ColumnGrows(dims: seq<Dimension>, lists: seq<seq<int>>, v: nat, d: nat, k: nat)
    requires |lists| == |dims| && d <= k <= |dims|
    ensures Column(dims, lists, v, d) <= Column(dims, lists, v, k)
    ensures forall m :: m in Column(dims, lists, v, d) <==> exists i: nat :: i < d && AtPlace(m, dims, lists, i, v)
    decreases k
  {
    forall m ensures m in Column(dims, lists, v, d) <==> exists i: nat :: i < d && AtPlace(m, dims, lists, i, v) {
      InColumn(dims, lists, v, d, m);
    }
    if d < k {
      ColumnGrows(dims, lists, v, d, k - 1);
    }
  }

  /** Parent number `parent` starts as many strides into its list, where the strides of all parents just cover the list. */
  lemma RotationStartsAtStride(mutations: seq<Mutation>, parent: nat, parents: nat, stride: nat, k: nat)
    requires parents > 0 && k < |mutations|
    requires |mutations| <= stride * parents < |mutations| + parents
    ensures (k + parent * stride) % |mutations| < |mutations|
    ensures Rotated(mutations, parent, parents)[k] == mutations[(k + parent * stride) % |mutations|]
  {
    hide CeilDiv;
    var n, offset := |mutations|, parent * stride;
    StrideUnique(n, parents, stride);
    DivMod(offset, n);
    DivMod(k + offset, n);
    if k < n - offset % n {
      DivModUnique(k + offset, n, offset / n, k + offset % n);
    } else {
      Distribute(offset / n, 1, n);
      DivModUnique(k + offset, n, offset / n + 1, k + offset % n - n);
    }
  }

  lemma StrideUnique(n: nat, parents: nat, stride: nat)
    requires n > 0 && parents > 0 && n <= stride * parents < n + parents
    ensures stride >= 1 && CeilDiv(n, parents) == stride
  {
    var q := CeilDiv(n, parents);
    if q < stride {
      MulMonotone(q + 1, stride, parents);
      Distribute(q, 1, parents);
    } else if stride < q {
      MulMonotone(stride + 1, q, parents);
      Distribute(stride, 1, parents);
    }
  }

  // ---------- Samples

  /** In dimension `i` sample `index` selects the value at the place to which its mirrored index in the i-th base points. */
  lemma SampleSelects(dims: seq<Dimension>, primes: seq<nat>, index: nat, i: nat) returns (place: nat)
    requires NonEmpty(dims) && AreBases(primes, dims) && i < |dims|
    ensures place < |dims[i].values| && Sample(dims, primes, index)[i] == dims[i].values[place]
    ensures place as real <= Halton.RadicalInverse(index, primes[i]) * |dims[i].values| as real < place as real + 1.0
  {
    hide Halton.RadicalInverse;
    Halton.InUnitInterval(index, primes[i]);
    place := Halton.ValueIndex(Halton.RadicalInverse(index, primes[i]), |dims[i].values|);
  }
}
