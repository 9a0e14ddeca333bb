/**
  The three sources of candidates: the exhaustive product, the space-filling global exploration and
  the mutations of a beam. All of them draw on one shared record of the settings already produced.
  Source: backend/services/optimization_service.py
*/
module CandidateGenerators {
  import opened Wrappers
  import opened AntennaSettings
  import opened SearchGrid
  import opened Candidates
  import opened CandidateRanking
  import Halton
  import Primes

  /** The signatures of all settings produced so far. A signature lists every field, so it is the settings. */
  class SeenSettings {
    var signatures: set<Settings>

    constructor (first: Settings)
      ensures signatures == {first}
    {
      signatures := {first};
    }
  }

  ghost predicate DistinctSettings(candidates: seq<Candidate>) {
    forall i, j :: 0 <= i < j < |candidates| ==> candidates[i].settings != candidates[j].settings
  }

  ghost function SettingsOf(candidates: seq<Candidate>): set<Settings> {
    set c | c in candidates :: c.settings
  }

  /** The candidates are new, admissible and pairwise different, and exactly they have been added to the record. */
  ghost predicate AreFresh(candidates: seq<Candidate>, before: set<Settings>, after: set<Settings>, space: SearchSpace)
    requires Valid(space)
  {
    && (forall c :: c in candidates ==> c.settings !in before && Admissible(c.settings, space) && RecordsChanges(c, space))
    && DistinctSettings(candidates)
    && after == before + SettingsOf(candidates)
  }

  lemma NoneFresh(before: set<Settings>, space: SearchSpace)
    requires Valid(space)
    ensures AreFresh([], before, before, space)
  {
  }

  lemma OneMoreFresh(candidates: seq<Candidate>, c: Candidate, before: set<Settings>, after: set<Settings>, space: SearchSpace)
    requires Valid(space) && AreFresh(candidates, before, after, space)
    requires c.settings !in after && Admissible(c.settings, space) && RecordsChanges(c, space)
    ensures AreFresh(candidates + [c], before, after + {c.settings}, space)
  {
    forall i | 0 <= i < |candidates| ensures candidates[i].settings != c.settings {
      assert candidates[i] in candidates;
    }
    assert SettingsOf(candidates + [c]) == SettingsOf(candidates) + {c.settings};
  }

  /** Tried: on the record, or against the rules. */
  ghost predicate Tried(settings: Settings, signatures: set<Settings>, space: SearchSpace)
    requires Valid(space)
  {
    settings in signatures || !Admissible(settings, space)
  }

  // ---------- The order of choice

  ghost function SettingsList(candidates: seq<Candidate>): (r: seq<Settings>)
    ensures |r| == |candidates|
  {
    seq(|candidates|, i requires 0 <= i < |candidates| => candidates[i].settings)
  }

  ghost function Extended(chosen: seq<Settings>, point: Settings, before: set<Settings>, space: SearchSpace): seq<Settings>
    requires Valid(space)
  {
    if point in before || point in chosen || !Admissible(point, space) then chosen else chosen + [point]
  }

  /** From a list of points, in its order, those that are new and admissible. */
  ghost function Chosen(points: seq<Settings>, before: set<Settings>, space: SearchSpace): seq<Settings>
    requires Valid(space)
  {
    if points == [] then []
    else Extended(Chosen(points[..|points| - 1], before, space), points[|points| - 1], before, space)
  }

  lemma ChosenStep(points: seq<Settings>, point: Settings, before: set<Settings>, space: SearchSpace)
    requires Valid(space)
    ensures Chosen(points + [point], before, space) == Extended(Chosen(points, before, space), point, before, space)
  {
    hide Admissible, Valid;
    assert (points + [point])[..|points|] == points;
  }

  lemma InSettingsList(candidates: seq<Candidate>, s: Settings)
    ensures s in SettingsList(candidates) <==> s in SettingsOf(candidates)
  {
    if s in SettingsOf(candidates) {
      var c :| c in candidates && c.settings == s;
      var i :| 0 <= i < |candidates| && candidates[i] == c;
      assert SettingsList(candidates)[i] == s;
    }
  }

  /** The steps shared by all generators: skip what is known or not allowed, record and append the rest. */
  method Consider(candidates: seq<Candidate>, seen: SeenSettings, ghost before: set<Settings>, id: CandidateId,
                  settings: Settings, parent: Option<CandidateId>, space: SearchSpace)
    returns (r: seq<Candidate>)
    requires Valid(space) && Legal(settings, space) && AreFresh(candidates, before, seen.signatures, space)
    modifies seen
    ensures AreFresh(r, before, seen.signatures, space)
    ensures seen.signatures >= old(seen.signatures) && Tried(settings, seen.signatures, space)
    ensures settings in old(seen.signatures) ==> r == candidates
    ensures SettingsList(r) == Extended(SettingsList(candidates), settings, before, space)
    ensures r == candidates
         || (|r| == |candidates| + 1 && r[..|candidates|] == candidates && r[|candidates|].id == id
             && r[|candidates|].settings == settings && r[|candidates|].parent == parent)
  {
    r := candidates;
    InSettingsList(candidates, settings);
    if settings in seen.signatures {
      return;
    }
    BaselineLookup(space.antennas);
    if !Allowed(settings, space) {
      return;
    }
    var c := ParameterCandidate(id, settings, space, parent);
    OneMoreFresh(candidates, c, before, seen.signatures, space);
    seen.signatures := seen.signatures + {settings};
    r := candidates + [c];
    assert SettingsList(r) == SettingsList(candidates) + [settings];
  }

  // ---------- Exhaustive search

  /** The first `n` combinations of the product. */
  function ProductPoints(space: SearchSpace, dims: seq<Dimension>, n: nat): seq<Settings>
    requires NonEmpty(dims) && forall i :: 0 <= i < |dims| ==> dims[i].id in Baseline(space)
  {
    seq(n, k requires 0 <= k < n => GridPoint(space, dims, Combination(dims, k)))
  }

  lemma NextProductPoint(space: SearchSpace, dims: seq<Dimension>, n: nat)
    requires NonEmpty(dims) && forall i :: 0 <= i < |dims| ==> dims[i].id in Baseline(space)
    ensures ProductPoints(space, dims, n + 1) == ProductPoints(space, dims, n) + [GridPoint(space, dims, Combination(dims, n))]
  {
    hide GridPoint, Combination;
  }

  lemma PointIsLegal(space: SearchSpace, dims: seq<Dimension>, k: nat)
    requires Valid(space) && AreDimensions(dims, space)
    ensures NonEmpty(dims) && forall i :: 0 <= i < |dims| ==> dims[i].id in Baseline(space)
    ensures Legal(GridPoint(space, dims, Combination(dims, k)), space)
  {
    DimensionFacts(space, dims);
    CombinationIsChoice(dims, k);
    GridPointIsLegal(space, dims, Combination(dims, k));
  }

  ghost predicate PointsTried(space: SearchSpace, dims: seq<Dimension>, n: nat, signatures: set<Settings>)
    requires Valid(space) && NonEmpty(dims) && forall i :: 0 <= i < |dims| ==> dims[i].id in Baseline(space)
  {
    forall k: nat :: k < n ==> Tried(GridPoint(space, dims, Combination(dims, k)), signatures, space)
  }

  lemma NoPoints(space: SearchSpace, dims: seq<Dimension>, signatures: set<Settings>)
    requires Valid(space) && NonEmpty(dims) && forall i :: 0 <= i < |dims| ==> dims[i].id in Baseline(space)
    ensures PointsTried(space, dims, 0, signatures)
  {
  }

  lemma NextPoint(space: SearchSpace, dims: seq<Dimension>, n: nat, before: set<Settings>, after: set<Settings>)
    requires Valid(space) && NonEmpty(dims) && forall i :: 0 <= i < |dims| ==> dims[i].id in Baseline(space)
    requires PointsTried(space, dims, n, before) && before <= after
    requires Tried(GridPoint(space, dims, Combination(dims, n)), after, space)
    ensures PointsTried(space, dims, n + 1, after)
  {
    hide Admissible, Valid, Baseline, GridPoint, Combination, NonEmpty;
    forall k: nat | k < n + 1 ensures Tried(GridPoint(space, dims, Combination(dims, k)), after, space) {
      assert k < n ==> Tried(GridPoint(space, dims, Combination(dims, k)), before, space);
    }
  }

  /** With room for all points but the known one, nothing admissible is left out. */
  method ExhaustiveCandidates(space: SearchSpace, dims: seq<Dimension>, seen: SeenSettings, limit: nat)
    returns (candidates: seq<Candidate>, ghost visited: nat)
    requires Valid(space) && AreDimensions(dims, space) && limit >= 1 && Baseline(space) in seen.signatures
    modifies seen
    ensures AreFresh(candidates, old(seen.signatures), seen.signatures, space)
    ensures |candidates| <= limit
    ensures forall i :: 0 <= i < |candidates| ==> candidates[i].id == GlobalExhaustive(i + 1) && candidates[i].parent == None
    ensures limit >= Size(dims) - 1 ==> forall s :: Admissible(s, space) ==> s in seen.signatures
    ensures NonEmpty(dims) && forall i :: 0 <= i < |dims| ==> dims[i].id in Baseline(space)
    ensures SettingsList(candidates) == Chosen(ProductPoints(space, dims, visited), old(seen.signatures), space)
    ensures visited <= Size(dims) && (|candidates| < limit ==> visited == Size(dims))
  {
    hide Admissible, AreDimensions, Valid, Legal, Allowed, Baseline, RecordsChanges, PointsTried, AreFresh, Combination, GridPoint, Extended;
    ghost var before := seen.signatures;
    candidates, visited := [], 0;
    NoneFresh(before, space);
    DimensionFacts(space, dims);
    BaselineIsAdmissible(space);
    ghost var known := BaselineNumber(space, dims);
    var k := 0;
    NoPoints(space, dims, before);
    while k < Size(dims) && |candidates| < limit
      invariant k <= Size(dims) && |candidates| <= limit
      invariant AreFresh(candidates, before, seen.signatures, space) && before <= seen.signatures
      invariant forall i :: 0 <= i < |candidates| ==> candidates[i].id == GlobalExhaustive(i + 1) && candidates[i].parent == None
      invariant PointsTried(space, dims, k, seen.signatures)
      invariant |candidates| + (if known < k then 1 else 0) <= k
      invariant visited == k && SettingsList(candidates) == Chosen(ProductPoints(space, dims, k), before, space)
      decreases Size(dims) - k
    {
      PointIsLegal(space, dims, k);
      ghost var sofar := seen.signatures;
      candidates := Consider(candidates, seen, before, GlobalExhaustive(|candidates| + 1),
                             GridPoint(space, dims, Combination(dims, k)), None, space);
      NextPoint(space, dims, k, sofar, seen.signatures);
      NextProductPoint(space, dims, k);
      ChosenStep(ProductPoints(space, dims, k), GridPoint(space, dims, Combination(dims, k)), before, space);
      k := k + 1;
      visited := k;
    }
    if limit >= Size(dims) - 1 {
      forall s | Admissible(s, space) ensures s in seen.signatures {
        EveryPointSeen(space, dims, s, k, known, seen.signatures);
      }
    }
  }

  lemma BaselineNumber(space: SearchSpace, dims: seq<Dimension>) returns (known: nat)
    requires Valid(space) && AreDimensions(dims, space)
    ensures NonEmpty(dims) && forall i :: 0 <= i < |dims| ==> dims[i].id in Baseline(space)
    ensures known < Size(dims) && GridPoint(space, dims, Combination(dims, known)) == Baseline(space)
  {
    BaselineIsLegal(space);
    known := NumberOf(space, dims, Baseline(space));
  }

  lemma EveryPointSeen(space: SearchSpace, dims: seq<Dimension>, s: Settings, k: nat, known: nat, signatures: set<Settings>)
    requires Valid(space) && AreDimensions(dims, space) && Admissible(s, space)
    requires NonEmpty(dims) && forall i :: 0 <= i < |dims| ==> dims[i].id in Baseline(space)
    requires PointsTried(space, dims, k, signatures) && Baseline(space) in signatures
    requires known < Size(dims) && GridPoint(space, dims, Combination(dims, known)) == Baseline(space)
    requires k >= Size(dims) || (k >= Size(dims) - 1 && known >= k)
    ensures s in signatures
  {
    var j := NumberOf(space, dims, s);
    if j < k {
      assert Tried(GridPoint(space, dims, Combination(dims, j)), signatures, space);
    }
  }

  // ---------- Global exploration

  /** The five range anchors: all low, all high, all middle, and the two alternations. */
  function AnchorValue(d: Dimension, index: nat, anchor: nat): int
    requires d.values != [] && anchor < 5
  {
    var low, high := d.values[0], d.values[|d.values| - 1];
    match anchor
    case 0 => low
    case 1 => high
    case 2 => d.values[|d.values| / 2]
    case 3 => if index % 2 == 1 then high else low
    case 4 => if index % 2 == 1 then low else high
  }

  function Anchor(dims: seq<Dimension>, anchor: nat): (values: seq<int>)
    requires NonEmpty(dims) && anchor < 5
    ensures |values| == |dims|
  {
    seq(|dims|, i requires 0 <= i < |dims| => AnchorValue(dims[i], i, anchor))
  }

  /** The anchors are the corners of the ranges: all lowest, all highest, all in the middle, and the two that alternate. */
  lemma AnchorsSpanRanges(dims: seq<Dimension>, i: nat, k: nat)
    requires NonEmpty(dims) && i < |dims| && StrictlyIncreasing(dims[i].values) && k < |dims[i].values|
    ensures Anchor(dims, 0)[i] <= dims[i].values[k] <= Anchor(dims, 1)[i]
    ensures 2 * k < |dims[i].values| - 1 ==> dims[i].values[k] < Anchor(dims, 2)[i]
    ensures 2 * k > |dims[i].values| ==> Anchor(dims, 2)[i] < dims[i].values[k]
    ensures Anchor(dims, 3)[i] == if i % 2 == 0 then Anchor(dims, 0)[i] else Anchor(dims, 1)[i]
    ensures Anchor(dims, 4)[i] == if i % 2 == 0 then Anchor(dims, 1)[i] else Anchor(dims, 0)[i]
  {
  }

  lemma AnchorIsChoice(dims: seq<Dimension>, anchor: nat)
    requires NonEmpty(dims) && anchor < 5
    ensures IsChoice(dims, Anchor(dims, anchor))
  {
  }

  function SampledValue(d: Dimension, base: nat, index: nat): (v: int)
    requires d.values != [] && base >= 2
    ensures v in d.values
  {
    Halton.InUnitInterval(index, base);
    d.values[Halton.ValueIndex(Halton.RadicalInverse(index, base), |d.values|)]
  }

  ghost predicate AreBases(primes: seq<nat>, dims: seq<Dimension>) {
    |primes| == |dims| && forall i :: 0 <= i < |primes| ==> primes[i] >= 2
  }

  /** The values that sample `index` selects, each dimension with its own prime base. */
  function Sample(dims: seq<Dimension>, primes: seq<nat>, index: nat): (values: seq<int>)
    requires NonEmpty(dims) && AreBases(primes, dims)
    ensures IsChoice(dims, values)
  {
    seq(|dims|, i requires 0 <= i < |dims| => SampledValue(dims[i], primes[i], index))
  }

  method SampleValues(dims: seq<Dimension>, primes: seq<nat>, index: nat) returns (values: seq<int>)
    requires NonEmpty(dims) && AreBases(primes, dims)
    ensures values == Sample(dims, primes, index)
  {
    values := [];
    for i := 0 to |dims|
      invariant values == Sample(dims, primes, index)[..i]
    {
      var fraction := Halton.ComputeRadicalInverse(index, primes[i]);
      Halton.InUnitInterval(index, primes[i]);
      values := values + [dims[i].values[Halton.ValueIndex(fraction, |dims[i].values|)]];
    }
  }

  ghost predicate SamplesTried(space: SearchSpace, dims: seq<Dimension>, primes: seq<nat>, n: nat, signatures: set<Settings>)
    requires Valid(space) && NonEmpty(dims) && AreBases(primes, dims)
    requires forall i :: 0 <= i < |dims| ==> dims[i].id in Baseline(space)
  {
    forall index: nat :: 1 <= index < n ==> Tried(GridPoint(space, dims, Sample(dims, primes, index)), signatures, space)
  }

  ghost predicate AnchorsTried(space: SearchSpace, dims: seq<Dimension>, n: nat, signatures: set<Settings>)
    requires Valid(space) && NonEmpty(dims) && n <= 5
    requires forall i :: 0 <= i < |dims| ==> dims[i].id in Baseline(space)
  {
    forall anchor: nat :: anchor < n ==> Tried(GridPoint(space, dims, Anchor(dims, anchor)), signatures, space)
  }

  /** A hundred samples for each candidate asked for, and a thousand at least. */
  function MaxAttempts(limit: nat): (n: nat)
    ensures n >= 1000 && n >= 100 * limit && n in {1000, 100 * limit}
  {
    if limit * 100 >= 1000 then limit * 100 else 1000
  }

  /** All anchors and all samples of the attempt budget were tried, with the first primes as bases. */
  ghost predicate ExplorationTried(space: SearchSpace, dims: seq<Dimension>, primes: seq<nat>, limit: nat, signatures: set<Settings>)
    requires Valid(space) && AreDimensions(dims, space)
  {
    DimensionFacts(space, dims);
    && AreBases(primes, dims) && Primes.FirstPrimesOf(primes)
    && AnchorsTried(space, dims, 5, signatures)
    && SamplesTried(space, dims, primes, MaxAttempts(limit) + 1, signatures)
  }

  lemma ExplorationStaysTried(space: SearchSpace, dims: seq<Dimension>, primes: seq<nat>, limit: nat, before: set<Settings>, after: set<Settings>)
    requires Valid(space) && AreDimensions(dims, space) && ExplorationTried(space, dims, primes, limit, before) && before <= after
    ensures ExplorationTried(space, dims, primes, limit, after)
  {
    hide Admissible, Valid, Baseline, AreDimensions, GridPoint, Sample, MaxAttempts;
    DimensionFacts(space, dims);
    AnchorsStayTried(space, dims, before, after);
    forall index: nat | 1 <= index < MaxAttempts(limit) + 1 ensures Tried(GridPoint(space, dims, Sample(dims, primes, index)), after, space) {
      assert Tried(GridPoint(space, dims, Sample(dims, primes, index)), before, space);
    }
  }

  ghost predicate NumberedGlobal(candidates: seq<Candidate>) {
    forall i :: 0 <= i < |candidates| ==> candidates[i].id == Global(i + 1) && candidates[i].parent == None
  }

  /** The first `n` anchors. */
  function AnchorPoints(space: SearchSpace, dims: seq<Dimension>, n: nat): seq<Settings>
    requires NonEmpty(dims) && n <= 5 && forall i :: 0 <= i < |dims| ==> dims[i].id in Baseline(space)
  {
    seq(n, k requires 0 <= k < n => GridPoint(space, dims, Anchor(dims, k)))
  }

  /** The first `n` samples, from index one on. */
  function SamplePoints(space: SearchSpace, dims: seq<Dimension>, primes: seq<nat>, n: nat): seq<Settings>
    requires NonEmpty(dims) && AreBases(primes, dims) && forall i :: 0 <= i < |dims| ==> dims[i].id in Baseline(space)
  {
    seq(n, k requires 0 <= k < n => GridPoint(space, dims, Sample(dims, primes, k + 1)))
  }

  /** What exploration visits: the five anchors, then the samples. */
  function ExplorationPoints(space: SearchSpace, dims: seq<Dimension>, primes: seq<nat>, n: nat): seq<Settings>
    requires NonEmpty(dims) && AreBases(primes, dims) && forall i :: 0 <= i < |dims| ==> dims[i].id in Baseline(space)
  {
    if n <= 5 then AnchorPoints(space, dims, n) else AnchorPoints(space, dims, 5) + SamplePoints(space, dims, primes, n - 5)
  }

  lemma NextAnchorPoint(space: SearchSpace, dims: seq<Dimension>, n: nat)
    requires NonEmpty(dims) && n < 5 && forall i :: 0 <= i < |dims| ==> dims[i].id in Baseline(space)
    ensures AnchorPoints(space, dims, n + 1) == AnchorPoints(space, dims, n) + [GridPoint(space, dims, Anchor(dims, n))]
  {
    hide GridPoint, Anchor;
  }

  lemma NextSamplePoint(space: SearchSpace, dims: seq<Dimension>, primes: seq<nat>, index: nat)
    requires NonEmpty(dims) && AreBases(primes, dims) && index >= 1
    requires forall i :: 0 <= i < |dims| ==> dims[i].id in Baseline(space)
    ensures ExplorationPoints(space, dims, primes, 5 + index)
         == ExplorationPoints(space, dims, primes, 4 + index) + [GridPoint(space, dims, Sample(dims, primes, index))]
  {
    hide GridPoint, Sample, AnchorPoints;
    var m := index - 1;
    assert SamplePoints(space, dims, primes, m + 1)
        == SamplePoints(space, dims, primes, m) + [GridPoint(space, dims, Sample(dims, primes, index))];
    if m == 0 {
      assert SamplePoints(space, dims, primes, 0) == [];
    }
  }

  /** The candidates are the first new admissible points of the exploration, in its order. */
  ghost predicate ChosenInOrder(chosen: seq<Settings>, space: SearchSpace, dims: seq<Dimension>, primes: seq<nat>, visited: nat,
                                before: set<Settings>)
    requires Valid(space) && AreDimensions(dims, space)
  {
    DimensionFacts(space, dims);
    && AreBases(primes, dims) && Primes.FirstPrimesOf(primes)
    && chosen == Chosen(ExplorationPoints(space, dims, primes, visited), before, space)
  }

  method AnchorCandidates(space: SearchSpace, dims: seq<Dimension>, seen: SeenSettings, limit: nat)
    returns (candidates: seq<Candidate>, ghost visited: nat)
    requires Valid(space) && AreDimensions(dims, space) && limit >= 1
    modifies seen
    ensures AreFresh(candidates, old(seen.signatures), seen.signatures, space) && old(seen.signatures) <= seen.signatures
    ensures |candidates| <= limit && NumberedGlobal(candidates)
    ensures NonEmpty(dims) && forall i :: 0 <= i < |dims| ==> dims[i].id in Baseline(space)
    ensures |candidates| < limit ==> AnchorsTried(space, dims, 5, seen.signatures)
    ensures visited <= 5 && (|candidates| < limit ==> visited == 5)
    ensures SettingsList(candidates) == Chosen(AnchorPoints(space, dims, visited), old(seen.signatures), space)
  {
    hide Admissible, AreDimensions, Valid, Legal, Allowed, Baseline, RecordsChanges, Anchor, AreFresh, GridPoint, Extended;
    ghost var before := seen.signatures;
    candidates, visited := [], 0;
    NoneFresh(before, space);
    DimensionFacts(space, dims);
    var anchor := 0;
    while anchor < 5 && |candidates| < limit
      invariant anchor <= 5 && |candidates| <= limit && NumberedGlobal(candidates)
      invariant AreFresh(candidates, before, seen.signatures, space) && before <= seen.signatures
      invariant AnchorsTried(space, dims, anchor, seen.signatures)
      invariant visited == anchor && SettingsList(candidates) == Chosen(AnchorPoints(space, dims, anchor), before, space)
    {
      AnchorIsChoice(dims, anchor);
      GridPointIsLegal(space, dims, Anchor(dims, anchor));
      candidates := Consider(candidates, seen, before, Global(|candidates| + 1),
                             GridPoint(space, dims, Anchor(dims, anchor)), None, space);
      NextAnchorPoint(space, dims, anchor);
      ChosenStep(AnchorPoints(space, dims, anchor), GridPoint(space, dims, Anchor(dims, anchor)), before, space);
      anchor := anchor + 1;
      visited := anchor;
    }
  }

  /**
    The candidates are the first new admissible settings among the anchors and then the samples. If
    fewer come out than asked for, all anchors and all samples of the attempt budget were tried.
  */
  method GlobalCandidates(space: SearchSpace, dims: seq<Dimension>, seen: SeenSettings, limit: nat)
    returns (candidates: seq<Candidate>, ghost primes: seq<nat>, ghost visited: nat)
    requires Valid(space) && AreDimensions(dims, space) && limit >= 1
    modifies seen
    ensures AreFresh(candidates, old(seen.signatures), seen.signatures, space)
    ensures |candidates| <= limit && NumberedGlobal(candidates)
    ensures |candidates| < limit ==> ExplorationTried(space, dims, primes, limit, seen.signatures)
    ensures ChosenInOrder(SettingsList(candidates), space, dims, primes, visited, old(seen.signatures))
    ensures visited <= 5 + MaxAttempts(limit) && (|candidates| < limit ==> visited == 5 + MaxAttempts(limit))
  {
    hide Admissible, AreDimensions, Valid, Legal, Allowed, Baseline, RecordsChanges, Sample, AreFresh, GridPoint, AnchorsTried;
    hide Primes.FirstPrimesOf, AreBases, Extended, Chosen, MaxAttempts;
    ghost var before := seen.signatures;
    DimensionFacts(space, dims);
    candidates, visited := AnchorCandidates(space, dims, seen, limit);
    ghost var anchored := seen.signatures;
    var bases := Primes.FirstPrimes(|dims|);
    primes := bases;
    PrimesAreBases(primes, dims);
    var index, maxAttempts := 1, MaxAttempts(limit);
    while |candidates| < limit && index <= maxAttempts
      invariant 1 <= index <= maxAttempts + 1 && |candidates| <= limit && NumberedGlobal(candidates)
      invariant AreFresh(candidates, before, seen.signatures, space) && anchored <= seen.signatures
      invariant |candidates| < limit ==> AnchorsTried(space, dims, 5, anchored)
      invariant SamplesTried(space, dims, primes, index, seen.signatures)
      invariant SettingsList(candidates) == Chosen(ExplorationPoints(space, dims, primes, visited), before, space)
      invariant visited <= 4 + index && (|candidates| < limit ==> visited == 4 + index)
      decreases maxAttempts + 1 - index
    {
      var values := SampleValues(dims, bases, index);
      GridPointIsLegal(space, dims, values);
      candidates := Consider(candidates, seen, before, Global(|candidates| + 1),
                             GridPoint(space, dims, values), None, space);
      NextSamplePoint(space, dims, primes, index);
      ChosenStep(ExplorationPoints(space, dims, primes, visited), GridPoint(space, dims, values), before, space);
      visited := visited + 1;
      index := index + 1;
    }
    if |candidates| < limit {
      AnchorsStayTried(space, dims, anchored, seen.signatures);
    }
  }

  lemma AnchorsStayTried(space: SearchSpace, dims: seq<Dimension>, before: set<Settings>, after: set<Settings>)
    requires Valid(space) && NonEmpty(dims) && forall i :: 0 <= i < |dims| ==> dims[i].id in Baseline(space)
    requires AnchorsTried(space, dims, 5, before) && before <= after
    ensures AnchorsTried(space, dims, 5, after)
  {
    hide Admissible, Valid, Baseline;
    forall anchor: nat | anchor < 5 ensures Tried(GridPoint(space, dims, Anchor(dims, anchor)), after, space) {
      assert Tried(GridPoint(space, dims, Anchor(dims, anchor)), before, space);
    }
  }

  lemma PrimesAreBases(primes: seq<nat>, dims: seq<Dimension>)
    requires |primes| == |dims| && Primes.FirstPrimesOf(primes)
    ensures AreBases(primes, dims)
  {
  }

  // ---------- Mutations of a beam

  method NearestIndex(values: seq<int>, current: int) returns (best: nat)
    requires values != []
    ensures best < |values|
    ensures forall i :: 0 <= i < |values| ==> Abs(values[best] - current) <= Abs(values[i] - current)
    ensures current in values ==> values[best] == current
  {
    best := 0;
    for i := 1 to |values|
      invariant best < i
      invariant forall j :: 0 <= j < i ==> Abs(values[best] - current) <= Abs(values[j] - current)
    {
      if Abs(values[i] - current) < Abs(values[best] - current) {
        best := i;
      }
    }
  }

  /** Values at most `radius` places away from the current one, which is left out. */
  ghost predicate IsNeighbour(values: seq<int>, current: int, radius: nat, v: int) {
    exists i, j :: 0 <= i < |values| && 0 <= j < |values| && i != j && values[i] == current && values[j] == v && i - radius <= j <= i + radius
  }

  /** Ring by ring, the value above before the value below. */
  function Nearby(values: seq<int>, at: nat, radius: nat): seq<int> {
    if radius == 0 then []
    else
      Nearby(values, at, radius - 1)
      + (if at + radius < |values| then [values[at + radius]] else [])
      + (if 0 <= at - radius < |values| then [values[at - radius]] else [])
  }

  ghost predicate IsNearbyList(nearby: seq<int>, values: seq<int>, current: int, radius: nat) {
    exists at: nat :: at < |values| && values[at] == current && nearby == Nearby(values, at, radius)
  }

  method NearbyParameterValues(values: seq<int>, current: int, radius: nat) returns (nearby: seq<int>)
    requires StrictlyIncreasing(values) && current in values
    ensures IsNearbyList(nearby, values, current, radius)
    ensures forall v :: v in nearby <==> IsNeighbour(values, current, radius, v)
  {
    var at := NearestIndex(values, current);
    nearby := [];
    for offset := 1 to radius + 1
      invariant nearby == Nearby(values, at, offset - 1)
    {
      if 0 <= at + offset < |values| {
        nearby := nearby + [values[at + offset]];
      }
      if 0 <= at - offset < |values| {
        nearby := nearby + [values[at - offset]];
      }
    }
    forall v ensures v in nearby <==> IsNeighbour(values, current, radius, v) {
      NearbyMember(values, at, radius, v);
      NeighbourPlaces(values, at, radius, v);
    }
  }

  lemma {:induction false} NearbyMember(values: seq<int>, at: nat, radius: nat, v: int)
    requires at < |values|
    ensures v in Nearby(values, at, radius)
       <==> exists j :: 0 <= j < |values| && j != at && values[j] == v && at - radius <= j <= at + radius
    decreases radius
  {
    if radius > 0 {
      NearbyMember(values, at, radius - 1, v);
    }
  }

  lemma NeighbourPlaces(values: seq<int>, at: nat, radius: nat, v: int)
    requires StrictlyIncreasing(values) && at < |values|
    ensures IsNeighbour(values, values[at], radius, v)
       <==> exists j :: 0 <= j < |values| && j != at && values[j] == v && at - radius <= j <= at + radius
  {
  }

  datatype Mutation = Mutation(id: Id, field: Field, value: int)

  function Mutate(settings: Settings, m: Mutation): Settings
    requires m.id in settings
  {
    settings[m.id := settings[m.id].With(m.field, m.value)]
  }

  /** One varied field moved to a nearby legal value. */
  ghost predicate IsMutation(m: Mutation, settings: Settings, dims: seq<Dimension>, radius: nat) {
    exists i :: 0 <= i < |dims| && dims[i].id == m.id && dims[i].field == m.field && m.id in settings
                && IsNeighbour(dims[i].values, settings[m.id].Get(m.field), radius, m.value)
  }

  ghost predicate AreNearbyLists(lists: seq<seq<int>>, settings: Settings, dims: seq<Dimension>, radius: nat) {
    |lists| == |dims| && forall k :: 0 <= k < |dims| ==>
      dims[k].id in settings && IsNearbyList(lists[k], dims[k].values, settings[dims[k].id].Get(dims[k].field), radius)
  }

  /** The v-th values of the first dimensions. */
  function Column(dims: seq<Dimension>, lists: seq<seq<int>>, v: nat, d: nat): seq<Mutation>
    requires |lists| == |dims| && d <= |dims|
  {
    if d == 0 then []
    else
      Column(dims, lists, v, d - 1)
      + if v < |lists[d - 1]| then [Mutation(dims[d - 1].id, dims[d - 1].field, lists[d - 1][v])] else []
  }

  /** Column by column: no dimension yields its next value before all others had their turn. */
  function Columns(dims: seq<Dimension>, lists: seq<seq<int>>, columns: nat): seq<Mutation>
    requires |lists| == |dims|
  {
    if columns == 0 then [] else Columns(dims, lists, columns - 1) + Column(dims, lists, columns - 1, |dims|)
  }

  /** The same legal values in the same order whenever the request is read. */
  method ParameterMutations(settings: Settings, space: SearchSpace, radius: nat, ghost dims: seq<Dimension>)
    returns (mutations: seq<Mutation>)
    requires Valid(space) && Legal(settings, space) && AreDimensions(dims, space)
    ensures forall m :: m in mutations <==> IsMutation(m, settings, dims, radius)
    ensures exists lists, columns ::
              AreNearbyLists(lists, settings, dims, radius) && mutations == Columns(dims, lists, columns)
  {
    hide Valid, Legal, AreDimensions, IsNeighbour, IsNearbyList;
    var own := OptimizationDimensions(space);
    DimensionsAreUnique(space, dims, own);
    DimensionFacts(space, own);
    LegalIsChoice(space, own, settings);
    var nearby: seq<seq<int>>, maxValues: nat := [], 0;
    for i := 0 to |own|
      invariant |nearby| == i
      invariant forall k :: 0 <= k < i ==> |nearby[k]| <= maxValues && NearbyOf(nearby[k], settings, own[k], radius)
      invariant forall k :: 0 <= k < i ==> IsNearbyList(nearby[k], own[k].values, settings[own[k].id].Get(own[k].field), radius)
    {
      assert ValuesAt(settings, own)[i] in own[i].values;
      var values := NearbyParameterValues(own[i].values, settings[own[i].id].Get(own[i].field), radius);
      nearby := nearby + [values];
      maxValues := if |values| > maxValues then |values| else maxValues;
    }
    mutations := Interleave(own, nearby, maxValues);
    assert AreNearbyLists(nearby, settings, own, radius);
    forall m ensures m in mutations <==> IsMutation(m, settings, dims, radius) {
      ColumnsAreListed(own, nearby, maxValues, m);
      MutationIffListed(m, settings, own, nearby, radius);
    }
  }

  ghost predicate NearbyOf(values: seq<int>, settings: Settings, d: Dimension, radius: nat) {
    d.id in settings && forall v :: v in values <==> IsNeighbour(d.values, settings[d.id].Get(d.field), radius, v)
  }

  ghost predicate Listed(m: Mutation, dims: seq<Dimension>, lists: seq<seq<int>>)
    requires |lists| == |dims|
  {
    exists i :: 0 <= i < |dims| && dims[i].id == m.id && dims[i].field == m.field && m.value in lists[i]
  }

  lemma MutationIffListed(m: Mutation, settings: Settings, dims: seq<Dimension>, lists: seq<seq<int>>, radius: nat)
    requires |lists| == |dims| && forall k :: 0 <= k < |dims| ==> NearbyOf(lists[k], settings, dims[k], radius)
    ensures Listed(m, dims, lists) <==> IsMutation(m, settings, dims, radius)
  {
    hide IsNeighbour;
    if i :| 0 <= i < |dims| && dims[i].id == m.id && dims[i].field == m.field && m.value in lists[i] {
      assert NearbyOf(lists[i], settings, dims[i], radius);
    }
    if IsMutation(m, settings, dims, radius) {
      var i :| 0 <= i < |dims| && dims[i].id == m.id && dims[i].field == m.field && m.id in settings
               && IsNeighbour(dims[i].values, settings[m.id].Get(m.field), radius, m.value);
      assert NearbyOf(lists[i], settings, dims[i], radius);
    }
  }

  ghost predicate AtPlace(m: Mutation, dims: seq<Dimension>, lists: seq<seq<int>>, i: nat, u: nat)
    requires |lists| == |dims|
  {
    i < |dims| && u < |lists[i]| && m == Mutation(dims[i].id, dims[i].field, lists[i][u])
  }

  lemma {:induction false} InColumn(dims: seq<Dimension>, lists: seq<seq<int>>, v: nat, d: nat, m: Mutation)
    requires |lists| == |dims| && d <= |dims|
    ensures m in Column(dims, lists, v, d) <==> exists i: nat :: i < d && AtPlace(m, dims, lists, i, v)
    decreases d
  {
    if d > 0 {
      InColumn(dims, lists, v, d - 1, m);
      assert AtPlace(m, dims, lists, d - 1, v) <==> v < |lists[d - 1]| && m == Mutation(dims[d - 1].id, dims[d - 1].field, lists[d - 1][v]);
    }
  }

  lemma {:induction false} InColumns(dims: seq<Dimension>, lists: seq<seq<int>>, columns: nat, m: Mutation)
    requires |lists| == |dims|
    ensures m in Columns(dims, lists, columns) <==> exists i: nat, u: nat :: u < columns && AtPlace(m, dims, lists, i, u)
    decreases columns
  {
    hide Column;
    if columns > 0 {
      InColumns(dims, lists, columns - 1, m);
      InColumn(dims, lists, columns - 1, |dims|, m);
      var v := columns - 1;
      assert (exists i: nat :: AtPlace(m, dims, lists, i, v)) <==> m in Column(dims, lists, v, |dims|);
    }
  }

  lemma ColumnsAreListed(dims: seq<Dimension>, lists: seq<seq<int>>, columns: nat, m: Mutation)
    requires |lists| == |dims| && forall k :: 0 <= k < |lists| ==> |lists[k]| <= columns
    ensures m in Columns(dims, lists, columns) <==> Listed(m, dims, lists)
  {
    hide Columns;
    InColumns(dims, lists, columns, m);
    if Listed(m, dims, lists) {
      var i :| 0 <= i < |dims| && dims[i].id == m.id && dims[i].field == m.field && m.value in lists[i];
      var u :| 0 <= u < |lists[i]| && lists[i][u] == m.value;
      assert AtPlace(m, dims, lists, i, u);
    }
  }

  /** Round by round, one value of each dimension that still has one. */
  method Interleave(dims: seq<Dimension>, lists: seq<seq<int>>, maxValues: nat) returns (mutations: seq<Mutation>)
    requires |lists| == |dims|
    ensures mutations == Columns(dims, lists, maxValues)
  {
    mutations := [];
    for v := 0 to maxValues
      invariant mutations == Columns(dims, lists, v)
    {
      ghost var before := mutations;
      for d := 0 to |dims|
        invariant mutations == before + Column(dims, lists, v, d)
      {
        if v < |lists[d]| {
          mutations := mutations + [Mutation(dims[d].id, dims[d].field, lists[d][v])];
        }
      }
    }
  }

  lemma MutateIsLegal(m: Mutation, settings: Settings, space: SearchSpace, dims: seq<Dimension>, radius: nat)
    requires Valid(space) && Legal(settings, space) && AreDimensions(dims, space) && IsMutation(m, settings, dims, radius)
    ensures m.id in settings && Legal(Mutate(settings, m), space)
  {
    hide Legal, Valid, AreDimensions;
    var i :| 0 <= i < |dims| && dims[i].id == m.id && dims[i].field == m.field && m.id in settings
             && IsNeighbour(dims[i].values, settings[m.id].Get(m.field), radius, m.value);
    assert m.value in dims[i].values;
    MutationIsLegal(settings, space, dims, i, m.value);
  }

  // ---------- Expanding a beam

  ghost predicate LegalFrontier(frontier: seq<Node>, space: SearchSpace)
    requires Valid(space)
  {
    forall p :: 0 <= p < |frontier| ==> Legal(frontier[p].trial.candidate.settings, space)
  }

  /** The candidate is a parent of the frontier with one varied field moved to a nearby legal value. */
  ghost predicate IsChild(c: Candidate, frontier: seq<Node>, dims: seq<Dimension>, radius: nat) {
    exists p, m :: 0 <= p < |frontier|
      && IsMutation(m, frontier[p].trial.candidate.settings, dims, radius)
      && m.id in frontier[p].trial.candidate.settings
      && c.settings == Mutate(frontier[p].trial.candidate.settings, m)
      && c.parent == Some(frontier[p].trial.candidate.id)
  }

  ghost predicate AreChildren(candidates: seq<Candidate>, frontier: seq<Node>, dims: seq<Dimension>, round: nat, radius: nat) {
    forall i :: 0 <= i < |candidates| ==>
      IsChild(candidates[i], frontier, dims, radius) && candidates[i].id == Beam(round, i + 1)
  }

  ghost predicate MutationTried(m: Mutation, settings: Settings, signatures: set<Settings>, space: SearchSpace)
    requires Valid(space)
  {
    m.id in settings && Tried(Mutate(settings, m), signatures, space)
  }

  /** The mutations already visited: all of the earlier rounds, and this round's of the first parents. */
  ghost predicate VisitedTried(frontier: seq<Node>, lists: seq<seq<Mutation>>, round: nat, parents: nat,
                               signatures: set<Settings>, space: SearchSpace)
    requires Valid(space) && |lists| == |frontier|
  {
    forall p, u :: 0 <= p < |frontier| && 0 <= u < |lists[p]| && (u < round || (u == round && p < parents)) ==>
      MutationTried(lists[p][u], frontier[p].trial.candidate.settings, signatures, space)
  }

  ghost predicate MutationLists(lists: seq<seq<Mutation>>, frontier: seq<Node>, dims: seq<Dimension>, radius: nat)
  {
    |lists| == |frontier| && forall p :: 0 <= p < |lists| ==>
      forall m :: m in lists[p] <==> IsMutation(m, frontier[p].trial.candidate.settings, dims, radius)
  }

  /** Every parent starts at its own place in its list of mutations. */
  function Rotated(mutations: seq<Mutation>, parent: nat, parents: nat): (r: seq<Mutation>)
    requires parents > 0
    ensures |r| == |mutations| && forall m :: m in r <==> m in mutations
  {
    if mutations == [] then []
    else
      var stride := CeilDiv(|mutations|, parents);
      var offset := (parent * (if stride < 1 then 1 else stride)) % |mutations|;
      assert mutations == mutations[..offset] + mutations[offset..];
      mutations[offset..] + mutations[..offset]
  }

  /** The list of a parent's mutations, in its order and started at the parent's own place. */
  ghost predicate IsTurnList(list: seq<Mutation>, settings: Settings, dims: seq<Dimension>, radius: nat, parent: nat, parents: nat)
    requires parents > 0
  {
    exists nearby, columns ::
      AreNearbyLists(nearby, settings, dims, radius) && list == Rotated(Columns(dims, nearby, columns), parent, parents)
  }

  ghost predicate AreTurnLists(lists: seq<seq<Mutation>>, frontier: seq<Node>, dims: seq<Dimension>, radius: nat) {
    |lists| <= |frontier| && forall p :: 0 <= p < |lists| ==>
      IsTurnList(lists[p], frontier[p].trial.candidate.settings, dims, radius, p, |frontier|)
  }

  method ParentMutations(frontier: seq<Node>, space: SearchSpace, radius: nat, ghost dims: seq<Dimension>)
    returns (lists: seq<seq<Mutation>>, maxMutations: nat)
    requires Valid(space) && AreDimensions(dims, space) && LegalFrontier(frontier, space)
    ensures MutationLists(lists, frontier, dims, radius) && AreTurnLists(lists, frontier, dims, radius)
    ensures forall p :: 0 <= p < |lists| ==> |lists[p]| <= maxMutations
  {
    hide Valid, AreDimensions, Legal, IsMutation, Rotated, AreNearbyLists, Columns;
    lists, maxMutations := [], 0;
    for p := 0 to |frontier|
      invariant MutationLists(lists, frontier[..p], dims, radius)
      invariant AreTurnLists(lists, frontier, dims, radius)
      invariant forall k :: 0 <= k < |lists| ==> |lists[k]| <= maxMutations
    {
      var mutations := ParameterMutations(frontier[p].trial.candidate.settings, space, radius, dims);
      lists := lists + [Rotated(mutations, p, |frontier|)];
      maxMutations := if |mutations| > maxMutations then |mutations| else maxMutations;
    }
    assert frontier[..|frontier|] == frontier;
  }

  /** Every candidate is one of the first `turns + 1` mutations of its parent. */
  ghost predicate TakenInTurn(candidates: seq<Candidate>, frontier: seq<Node>, lists: seq<seq<Mutation>>, turns: nat)
    requires |lists| == |frontier|
  {
    forall c :: c in candidates ==>
      exists p, u :: 0 <= p < |frontier| && 0 <= u <= turns && u < |lists[p]|
        && c.parent == Some(frontier[p].trial.candidate.id)
        && lists[p][u].id in frontier[p].trial.candidate.settings
        && c.settings == Mutate(frontier[p].trial.candidate.settings, lists[p][u])
  }

  /** The settings reached in the first `turns` turns of all parents, and in the next turn of the first `parents`, in this order. */
  ghost function TurnPoints(frontier: seq<Node>, lists: seq<seq<Mutation>>, turns: nat, parents: nat): seq<Settings>
    requires |lists| == |frontier| && parents <= |frontier|
    decreases turns, parents
  {
    if parents > 0 then TurnPoints(frontier, lists, turns, parents - 1) + TurnPoint(frontier, lists, turns, parents - 1)
    else if turns > 0 then TurnPoints(frontier, lists, turns - 1, |frontier|)
    else []
  }

  /** Where one parent's turn leads; nowhere once its list is used up. */
  ghost function TurnPoint(frontier: seq<Node>, lists: seq<seq<Mutation>>, turn: nat, parent: nat): seq<Settings>
    requires |lists| == |frontier| && parent < |frontier|
  {
    var settings := frontier[parent].trial.candidate.settings;
    if turn < |lists[parent]| && lists[parent][turn].id in settings then [Mutate(settings, lists[parent][turn])] else []
  }

  /**
    The parents take turns: the candidates are the first new admissible settings in turn order. When
    generation stops in some turn, all mutations of earlier turns, of all parents, have been tried. If fewer candidates come out than asked for, no nearby mutation of
    any parent is left untried.
  */
  method BeamCandidates(frontier: seq<Node>, space: SearchSpace, seen: SeenSettings, round: nat, limit: nat, radius: nat,
                        ghost dims: seq<Dimension>)
    returns (candidates: seq<Candidate>, ghost turnLists: seq<seq<Mutation>>, ghost turns: nat, ghost parents: nat)
    requires Valid(space) && AreDimensions(dims, space) && LegalFrontier(frontier, space) && limit >= 1
    modifies seen
    ensures AreFresh(candidates, old(seen.signatures), seen.signatures, space)
    ensures |candidates| <= limit && AreChildren(candidates, frontier, dims, round, radius)
    ensures MutationLists(turnLists, frontier, dims, radius) && AreTurnLists(turnLists, frontier, dims, radius)
    ensures TakenInTurn(candidates, frontier, turnLists, turns)
    ensures parents <= |frontier|
    ensures SettingsList(candidates) == Chosen(TurnPoints(frontier, turnLists, turns, parents), old(seen.signatures), space)
    ensures |candidates| < limit ==> forall p :: 0 <= p < |frontier| ==> |turnLists[p]| <= turns
    ensures VisitedTried(frontier, turnLists, turns, 0, seen.signatures, space)
    ensures |candidates| < limit ==>
              forall p, m :: 0 <= p < |frontier| && IsMutation(m, frontier[p].trial.candidate.settings, dims, radius) ==>
                MutationTried(m, frontier[p].trial.candidate.settings, seen.signatures, space)
  {
    hide Admissible, AreDimensions, Valid, Legal, Allowed, Baseline, RecordsChanges, AreFresh, IsMutation, IsChild, Tried, Mutate;
    hide VisitedTried, TakenInTurn, MutationLists, MutationTried, AreTurnLists, TurnPoints, TurnPoint, Chosen, Extended;
    ghost var before := seen.signatures;
    candidates := [];
    NoneFresh(before, space);
    var lists, maxMutations := ParentMutations(frontier, space, radius, dims);
    turnLists, turns, parents := lists, 0, 0;
    SameLength(lists, frontier, dims, radius);
    NothingVisited(frontier, lists, seen.signatures, space);
    for u := 0 to maxMutations
      invariant |candidates| < limit && AreChildren(candidates, frontier, dims, round, radius)
      invariant AreFresh(candidates, before, seen.signatures, space)
      invariant VisitedTried(frontier, lists, u, 0, seen.signatures, space)
      invariant TakenInTurn(candidates, frontier, lists, u)
      invariant SettingsList(candidates) == Chosen(TurnPoints(frontier, lists, u, 0), before, space)
    {
      turns := u;
      for p := 0 to |frontier|
        invariant |candidates| < limit && AreChildren(candidates, frontier, dims, round, radius)
        invariant AreFresh(candidates, before, seen.signatures, space)
        invariant VisitedTried(frontier, lists, u, p, seen.signatures, space)
        invariant TakenInTurn(candidates, frontier, lists, u)
        invariant SettingsList(candidates) == Chosen(TurnPoints(frontier, lists, u, p), before, space)
      {
        parents := p + 1;
        if u < |lists[p]| {
          candidates := ConsiderMutation(candidates, frontier, lists, u, p, space, seen, before, round, radius, dims);
          TurnTaken(frontier, lists, u, p, before, space, dims, radius);
          if |candidates| >= limit {
            EarlierTurns(frontier, lists, u, p + 1, seen.signatures, space);
            return;
          }
        } else {
          SkipParent(frontier, lists, u, p, seen.signatures, space);
          TurnSkipped(frontier, lists, u, p);
        }
      }
      NextTurn(candidates, frontier, lists, u, seen.signatures, space);
    }
    turns, parents := maxMutations, 0;
    AllVisited(frontier, lists, maxMutations, seen.signatures, space, dims, radius);
  }

  lemma TurnTaken(frontier: seq<Node>, lists: seq<seq<Mutation>>, u: nat, p: nat, before: set<Settings>, space: SearchSpace,
                  dims: seq<Dimension>, radius: nat)
    requires Valid(space) && MutationLists(lists, frontier, dims, radius) && p < |frontier| && u < |lists[p]|
    ensures |lists| == |frontier|
    ensures lists[p][u].id in frontier[p].trial.candidate.settings
    ensures Chosen(TurnPoints(frontier, lists, u, p + 1), before, space)
         == Extended(Chosen(TurnPoints(frontier, lists, u, p), before, space),
                     Mutate(frontier[p].trial.candidate.settings, lists[p][u]), before, space)
  {
    hide Valid, Extended, Mutate;
    assert lists[p][u] in lists[p];
    ChosenStep(TurnPoints(frontier, lists, u, p), Mutate(frontier[p].trial.candidate.settings, lists[p][u]), before, space);
  }

  lemma TurnSkipped(frontier: seq<Node>, lists: seq<seq<Mutation>>, u: nat, p: nat)
    requires |lists| == |frontier| && p < |frontier| && u >= |lists[p]|
    ensures TurnPoints(frontier, lists, u, p + 1) == TurnPoints(frontier, lists, u, p)
  {
    assert TurnPoint(frontier, lists, u, p) == [];
  }

  lemma SameLength(lists: seq<seq<Mutation>>, frontier: seq<Node>, dims: seq<Dimension>, radius: nat)
    requires MutationLists(lists, frontier, dims, radius)
    ensures |lists| == |frontier|
  {
  }

  lemma NothingVisited(frontier: seq<Node>, lists: seq<seq<Mutation>>, signatures: set<Settings>, space: SearchSpace)
    requires Valid(space) && |lists| == |frontier|
    ensures VisitedTried(frontier, lists, 0, 0, signatures, space) && TakenInTurn([], frontier, lists, 0)
    ensures SettingsList([]) == Chosen(TurnPoints(frontier, lists, 0, 0), signatures, space)
  {
  }

  lemma SkipParent(frontier: seq<Node>, lists: seq<seq<Mutation>>, u: nat, p: nat, signatures: set<Settings>, space: SearchSpace)
    requires Valid(space) && |lists| == |frontier| && p < |frontier| && u >= |lists[p]|
    requires VisitedTried(frontier, lists, u, p, signatures, space)
    ensures VisitedTried(frontier, lists, u, p + 1, signatures, space)
  {
  }

  lemma NextTurn(candidates: seq<Candidate>, frontier: seq<Node>, lists: seq<seq<Mutation>>, u: nat, signatures: set<Settings>, space: SearchSpace)
    requires Valid(space) && |lists| == |frontier| && VisitedTried(frontier, lists, u, |frontier|, signatures, space)
    requires TakenInTurn(candidates, frontier, lists, u)
    ensures VisitedTried(frontier, lists, u + 1, 0, signatures, space) && TakenInTurn(candidates, frontier, lists, u + 1)
    ensures TurnPoints(frontier, lists, u + 1, 0) == TurnPoints(frontier, lists, u, |frontier|)
  {
    hide Mutate, MutationTried, Valid;
  }

  lemma EarlierTurns(frontier: seq<Node>, lists: seq<seq<Mutation>>, u: nat, p: nat, signatures: set<Settings>, space: SearchSpace)
    requires Valid(space) && |lists| == |frontier| && VisitedTried(frontier, lists, u, p, signatures, space)
    ensures VisitedTried(frontier, lists, u, 0, signatures, space)
  {
  }

  method ConsiderMutation(candidates: seq<Candidate>, frontier: seq<Node>, lists: seq<seq<Mutation>>, u: nat, p: nat,
                          space: SearchSpace, seen: SeenSettings, ghost before: set<Settings>, round: nat,
                          ghost radius: nat, ghost dims: seq<Dimension>)
    returns (r: seq<Candidate>)
    requires Valid(space) && AreDimensions(dims, space) && LegalFrontier(frontier, space)
    requires MutationLists(lists, frontier, dims, radius) && p < |frontier| && u < |lists[p]|
    requires AreFresh(candidates, before, seen.signatures, space) && AreChildren(candidates, frontier, dims, round, radius)
    requires VisitedTried(frontier, lists, u, p, seen.signatures, space) && TakenInTurn(candidates, frontier, lists, u)
    modifies seen
    ensures AreFresh(r, before, seen.signatures, space) && AreChildren(r, frontier, dims, round, radius)
    ensures TakenInTurn(r, frontier, lists, u)
    ensures VisitedTried(frontier, lists, u, p + 1, seen.signatures, space)
    ensures |r| <= |candidates| + 1
    ensures lists[p][u].id in frontier[p].trial.candidate.settings
    ensures SettingsList(r)
         == Extended(SettingsList(candidates), Mutate(frontier[p].trial.candidate.settings, lists[p][u]), before, space)
  {
    hide Admissible, AreDimensions, Valid, Legal, Allowed, Baseline, RecordsChanges, AreFresh, IsMutation, Extended;
    ghost var sofar := seen.signatures;
    var parent, m := frontier[p].trial.candidate, lists[p][u];
    assert m in lists[p];
    MutateIsLegal(m, parent.settings, space, dims, radius);
    r := Consider(candidates, seen, before, Beam(round, |candidates| + 1), Mutate(parent.settings, m), Some(parent.id), space);
    MoreVisited(frontier, lists, u, p, sofar, seen.signatures, space);
    if r != candidates {
      assert IsChild(r[|candidates|], frontier, dims, radius);
      forall i | 0 <= i < |r| ensures IsChild(r[i], frontier, dims, radius) && r[i].id == Beam(round, i + 1) {
        assert i < |candidates| ==> r[i] == candidates[i];
      }
    }
  }

  lemma MoreVisited(frontier: seq<Node>, lists: seq<seq<Mutation>>, u: nat, p: nat, before: set<Settings>, after: set<Settings>,
                    space: SearchSpace)
    requires Valid(space) && |lists| == |frontier| && p < |frontier| && u < |lists[p]| && before <= after
    requires VisitedTried(frontier, lists, u, p, before, space)
    requires MutationTried(lists[p][u], frontier[p].trial.candidate.settings, after, space)
    ensures VisitedTried(frontier, lists, u, p + 1, after, space)
  {
    hide Admissible, Valid;
    forall q: nat, v: nat | q < |frontier| && v < |lists[q]| && (v < u || (v == u && q < p + 1))
      ensures MutationTried(lists[q][v], frontier[q].trial.candidate.settings, after, space)
    {
      if v < u || q < p {
        assert MutationTried(lists[q][v], frontier[q].trial.candidate.settings, before, space);
      }
    }
  }

  lemma AllVisited(frontier: seq<Node>, lists: seq<seq<Mutation>>, rounds: nat, signatures: set<Settings>, space: SearchSpace,
                   dims: seq<Dimension>, radius: nat)
    requires Valid(space) && MutationLists(lists, frontier, dims, radius)
    requires forall p :: 0 <= p < |lists| ==> |lists[p]| <= rounds
    requires VisitedTried(frontier, lists, rounds, 0, signatures, space)
    ensures forall p, m :: 0 <= p < |frontier| && IsMutation(m, frontier[p].trial.candidate.settings, dims, radius) ==>
              MutationTried(m, frontier[p].trial.candidate.settings, signatures, space)
  {
    hide Valid, IsMutation, MutationTried;
    forall p, m | 0 <= p < |frontier| && IsMutation(m, frontier[p].trial.candidate.settings, dims, radius)
      ensures MutationTried(m, frontier[p].trial.candidate.settings, signatures, space)
    {
      assert m in lists[p];
      var u :| 0 <= u < |lists[p]| && lists[p][u] == m;
    }
  }
}
