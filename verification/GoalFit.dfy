/**
  What the rank orders: verdicts, shortfalls, missed objectives and changes, told by the objectives'
  operators, targets and readings.
  Source: backend/services/optimization_service.py
*/
module GoalFit {
  import opened Wrappers
  import opened Kpis
  import opened KpiMeaning
  import opened Candidates
  import opened CandidateRanking

  /** Zero for a value that meets the target, and otherwise its distance to the target. */
  function Shortfall(actual: real, op: Operator, target: real): real {
    if Meets(Some(actual), op, target) then 0.0
    else if actual < target then target - actual
    else actual - target
  }

  /** Shortfalls in dB and in overlapping signals count by tens, percentages and throughput by hundreds. */
  function Unit(o: Objective): Scale {
    match o
    case Aggregate(AverageOverlap, _, _) => 10.0
    case Aggregate(_, _, _) => 100.0
    case AreaAbove(_, _, _, _, _) => 100.0
    case AtPercentile(Throughput, _, _, _) => 100.0
    case AtPercentile(_, _, _, _) => 10.0
  }

  /** The sum of all shortfalls in their units; None if some value is missing. */
  function TotalShortfall(objectives: seq<Objective>, actuals: seq<Option<real>>): Option<real>
    requires |objectives| == |actuals|
  {
    if objectives == [] then Some(0.0)
    else
      var n := |objectives| - 1;
      var rest, o, actual := TotalShortfall(objectives[..n], actuals[..n]), objectives[n], actuals[n];
      if rest.None? || actual.None? then None
      else Some(rest.value + Shortfall(actual.value, o.op, o.target) / Unit(o))
  }

  /** How many objectives are missed; a missing value misses its objective. */
  function Missed(objectives: seq<Objective>, actuals: seq<Option<real>>): nat
    requires |objectives| == |actuals|
  {
    if objectives == [] then 0
    else
      var n := |objectives| - 1;
      Missed(objectives[..n], actuals[..n]) + if Meets(actuals[n], objectives[n].op, objectives[n].target) then 0 else 1
  }

  function Actuals(evaluations: seq<ObjectiveEvaluation>): (r: seq<Option<real>>)
    ensures |r| == |evaluations|
  {
    seq(|evaluations|, i requires 0 <= i < |evaluations| => evaluations[i].actual)
  }

  /** The value of an objective is its KPI, the share of cells beyond its threshold, or its percentile. */
  ghost predicate IsActual(cells: seq<Cell>, kpis: KpiRecord, o: Objective, actual: Option<real>)
    requires kpis.Keys == METRICS
  {
    match o
    case Aggregate(metric, _, _) => metric in kpis && actual == kpis[metric]
    case AreaAbove(m, op, threshold, _, _) => IsShare(cells, (c: Cell) => Meets(Reading(c, m), op, threshold), actual)
    case AtPercentile(m, p, _, _) => IsPercentile(cells, m, p, actual)
  }

  lemma OneMeasured(cells: seq<Cell>, kpis: KpiRecord, o: Objective, gap: Gap)
    requires kpis.Keys == METRICS && EvaluateObjective(cells, kpis, o).Ok? && cells != []
    ensures var e := EvaluateObjective(cells, kpis, o).value;
            && IsActual(cells, kpis, o, e.actual)
            && (e.passed <==> Meets(e.actual, o.op, o.target))
            && AddGap(gap, e) == if gap.Infinite? || e.actual.None? then Infinite
                                 else Finite(gap.value + Shortfall(e.actual.value, o.op, o.target) / Unit(o))
  {
    hide IsShare, IsPercentile, ThresholdArea, CalculatePercentile;
    var e := EvaluateObjective(cells, kpis, o).value;
    match o {
      case Aggregate(metric, _, _) => AllMetrics(metric);
      case AreaAbove(m, op, threshold, _, _) =>
        ThresholdRaises(cells, m, op, threshold);
        ThresholdAreaIsShare(cells, m, op, threshold);
      case AtPercentile(m, p, _, _) =>
        PercentileRaises(cells, m, p);
        PercentileOfField(cells, m, p);
    }
    if e.actual.Some? {
      ScoreIsShortfall(e.actual.value, o.op, o.target);
    }
  }

  lemma ScoreIsShortfall(actual: real, op: Operator, target: real)
    ensures ObjectiveScore(actual, op, target) == Shortfall(actual, op, target)
    ensures Compare(actual, op, target) <==> Meets(Some(actual), op, target)
  {
  }

  lemma ThresholdRaises(cells: seq<Cell>, m: Measurement, op: Operator, threshold: real)
    ensures ThresholdArea(cells, m, op, threshold).Ok? <==> op != Equal
  {
  }

  lemma PercentileRaises(cells: seq<Cell>, m: Measurement, p: real)
    ensures CalculatePercentile(cells, m, p).Ok? <==> 0.0 < p <= 100.0
  {
  }

  /** The evaluations of a grid carry the values of their objectives, and their gap and failures are those of these values. */
  lemma {:induction false} EvaluationsMeasured(cells: seq<Cell>, kpis: KpiRecord, objectives: seq<Objective>)
    requires kpis.Keys == METRICS && EvaluateObjectives(cells, kpis, objectives).Ok? && cells != []
    ensures var e := EvaluateObjectives(cells, kpis, objectives).value;
            && |e| == |objectives|
            && (forall i :: 0 <= i < |objectives| ==> IsActual(cells, kpis, objectives[i], e[i].actual))
            && (ObjectivesPassed(e) <==> Missed(objectives, Actuals(e)) == 0)
            && Failures(e) == Missed(objectives, Actuals(e))
            && NormalizedGap(e) == match TotalShortfall(objectives, Actuals(e)) { case None => Infinite case Some(g) => Finite(g) }
  {
    hide EvaluateObjective, AddGap, IsActual, Shortfall, Unit, Meets;
    if objectives != [] {
      var n := |objectives| - 1;
      EvaluationsMeasured(cells, kpis, objectives[..n]);
      var early, all := EvaluateObjectives(cells, kpis, objectives[..n]).value, EvaluateObjectives(cells, kpis, objectives).value;
      assert all[..n] == early;
      assert Actuals(all)[..n] == Actuals(early);
      OneMeasured(cells, kpis, objectives[n], NormalizedGap(early));
    }
  }

  // ---------- The order

  /** No larger, where a missing value is infinitely large. */
  predicate NoMoreThan(a: Option<real>, b: Option<real>) {
    b.Some? ==> a.Some? && a.value <= b.value
  }

  function ShortfallOf(objectives: seq<Objective>, e: Evaluation): Option<real>
    requires |e.evaluations| == |objectives|
  {
    TotalShortfall(objectives, Actuals(e.evaluations))
  }

  function MissedBy(objectives: seq<Objective>, e: Evaluation): nat
    requires |e.evaluations| == |objectives|
  {
    Missed(objectives, Actuals(e.evaluations))
  }

  /** A verdict that is given on the objectives, and whose gap and failures are those of its values. */
  ghost predicate IsMeasured(objectives: seq<Objective>, e: Evaluation) {
    && |e.evaluations| == |objectives|
    && (e.objectivesPassed <==> MissedBy(objectives, e) == 0)
    && Failures(e.evaluations) == MissedBy(objectives, e)
    && NormalizedGap(e.evaluations) == match ShortfallOf(objectives, e) { case None => Infinite case Some(g) => Finite(g) }
  }

  /** The better goal fit: guardrails first, then all objectives, then the smaller shortfall, then fewer missed objectives. */
  predicate FitsBetter(objectives: seq<Objective>, a: Evaluation, b: Evaluation)
    requires |a.evaluations| == |objectives| == |b.evaluations|
  {
    var gapA, gapB := ShortfallOf(objectives, a), ShortfallOf(objectives, b);
    || (a.guardrailsPassed && !b.guardrailsPassed)
    || (a.guardrailsPassed == b.guardrailsPassed
        && (|| (a.objectivesPassed && !b.objectivesPassed)
            || (a.objectivesPassed == b.objectivesPassed
                && (|| (gapA.Some? && (gapB.Some? ==> gapA.value < gapB.value))
                    || (gapA == gapB && MissedBy(objectives, a) < MissedBy(objectives, b))))))
  }

  predicate FitsAlike(objectives: seq<Objective>, a: Evaluation, b: Evaluation)
    requires |a.evaluations| == |objectives| == |b.evaluations|
  {
    && a.guardrailsPassed == b.guardrailsPassed && a.objectivesPassed == b.objectivesPassed
    && ShortfallOf(objectives, a) == ShortfallOf(objectives, b) && MissedBy(objectives, a) == MissedBy(objectives, b)
  }

  /** The rank is goal fit, then the number of changed antennas, then the size of the changes. */
  lemma RankIsGoalFit(objectives: seq<Objective>, a: Evaluation, b: Evaluation, c: ChangeCost, d: ChangeCost)
    requires IsMeasured(objectives, a) && IsMeasured(objectives, b)
    ensures RefinementLess(OptimizationRank(a, c), OptimizationRank(b, d)) <==> FitsBetter(objectives, a, b)
    ensures RankLess(OptimizationRank(a, c), OptimizationRank(b, d))
       <==> || FitsBetter(objectives, a, b)
            || (FitsAlike(objectives, a, b)
                && (c.changedAntennas < d.changedAntennas || (c.changedAntennas == d.changedAntennas && c.magnitude < d.magnitude)))
  {
    hide TotalShortfall, Missed, Actuals, NormalizedGap, Failures;
  }
}
