/**
  How tested candidates are judged: objectives, guardrails against the starting setup, and the
  lexicographic rank that orders them.
  Source: backend/services/optimization_service.py
*/
module CandidateRanking {
  import opened Wrappers
  import opened StableSort
  import opened Kpis
  import opened Candidates

  // ---------- Objectives

  datatype Objective =
    | Aggregate(metric: Metric, op: Operator, target: real)
    | AreaAbove(measurement: Measurement, thresholdOp: Operator, threshold: real, op: Operator, target: real)
    | AtPercentile(measurement: Measurement, percentile: real, op: Operator, target: real)

  type Scale = x: real | x > 0.0 witness 1.0

  /** A shortfall; infinite when the value is missing. */
  datatype Gap = Finite(value: real) | Infinite

  datatype ObjectiveEvaluation = ObjectiveEvaluation(actual: Option<real>, passed: bool, score: Gap, scale: Scale)

  function ObjectiveScore(actual: real, op: Operator, target: real): real {
    match op
    case Less => if actual - target > 0.0 then actual - target else 0.0
    case AtMost => if actual - target > 0.0 then actual - target else 0.0
    case Greater => if target - actual > 0.0 then target - actual else 0.0
    case AtLeast => if target - actual > 0.0 then target - actual else 0.0
    case Equal => if actual < target then target - actual else actual - target
  }

  function NormalizationScale(o: Objective): Scale {
    match o
    case Aggregate(metric, _, _) => if metric == AverageOverlap then 10.0 else 100.0
    case AreaAbove(_, _, _, _, _) => 100.0
    case AtPercentile(measurement, _, _, _) => if measurement == Throughput then 100.0 else 10.0
  }

  /** The value an objective is about: a KPI of the record, or a figure computed from the cells. */
  function ActualValue(cells: seq<Cell>, kpis: KpiRecord, o: Objective): Result<Option<real>, KpiError>
    requires kpis.Keys == METRICS
  {
    match o
    case Aggregate(metric, _, _) => AllMetrics(metric); Ok(kpis[metric])
    case AreaAbove(measurement, thresholdOp, threshold, _, _) =>
      (match ThresholdArea(cells, measurement, thresholdOp, threshold)
       case Err(e) => Err(e)
       case Ok(area) => Ok(Some(area.areaPercent)))
    case AtPercentile(measurement, percentile, _, _) => CalculatePercentile(cells, measurement, percentile)
  }

  function EvaluateObjective(cells: seq<Cell>, kpis: KpiRecord, o: Objective): Result<ObjectiveEvaluation, KpiError>
    requires kpis.Keys == METRICS
  {
    match ActualValue(cells, kpis, o)
    case Err(e) => Err(e)
    case Ok(None) => Ok(ObjectiveEvaluation(None, false, Infinite, NormalizationScale(o)))
    case Ok(Some(actual)) =>
      Ok(ObjectiveEvaluation(Some(actual), Compare(actual, o.op, o.target), Finite(ObjectiveScore(actual, o.op, o.target)), NormalizationScale(o)))
  }

  /** The score is the distance to the nearest passing value: zero for passing values, positive otherwise, save for the excluded end of a strict target. */
  lemma ScoreMeasuresShortfall(actual: real, op: Operator, target: real, passing: real)
    ensures ObjectiveScore(actual, op, target) >= 0.0
    ensures Compare(actual, op, target) ==> ObjectiveScore(actual, op, target) == 0.0
    ensures ObjectiveScore(actual, op, target) == 0.0 ==> Compare(actual, op, target) || actual == target
    ensures Compare(passing, op, target) ==>
              (if actual < passing then passing - actual else actual - passing) >= ObjectiveScore(actual, op, target)
  {
  }

  function EvaluateObjectives(cells: seq<Cell>, kpis: KpiRecord, objectives: seq<Objective>): Result<seq<ObjectiveEvaluation>, KpiError>
    requires kpis.Keys == METRICS
  {
    if objectives == [] then Ok([])
    else
      match EvaluateObjectives(cells, kpis, objectives[..|objectives| - 1])
      case Err(e) => Err(e)
      case Ok(rest) =>
        match EvaluateObjective(cells, kpis, objectives[|objectives| - 1])
        case Err(e) => Err(e)
        case Ok(last) => Ok(rest + [last])
  }

  // ---------- Guardrails

  datatype Guardrail = Guardrail(metric: Metric, maxRegression: real)

  datatype GuardrailEvaluation = GuardrailEvaluation(metric: Metric, regression: Option<real>, passed: bool)

  const LOWER_IS_BETTER: set<Metric> := {UncoveredArea, OverlapArea, AverageOverlap}

  /** How much worse the KPI has become: coverage and signal by falling, holes and overlap by rising. */
  function Worsening(metric: Metric, before: real, after: real): real {
    match metric
    case CoveredArea => before - after
    case UncoveredArea => after - before
    case OverlapArea => after - before
    case AverageOverlap => after - before
    case RsrpP10 => before - after
    case SinrP10 => before - after
    case ThroughputP10 => before - after
  }

  /** Both KPIs are defined, and the new one is worse than the old one by at most the guardrail's limit. */
  predicate KeepsLimit(g: Guardrail, baseline: KpiRecord, kpis: KpiRecord)
    requires kpis.Keys == METRICS && baseline.Keys == METRICS
  {
    AllMetrics(g.metric);
    && baseline[g.metric].Some? && kpis[g.metric].Some?
    && Worsening(g.metric, baseline[g.metric].value, kpis[g.metric].value) <= g.maxRegression && 0.0 <= g.maxRegression
  }

  /** The verdict on one guardrail: whether its limit is kept, and how far the KPI has worsened, if at all. */
  predicate JudgesLimit(e: GuardrailEvaluation, g: Guardrail, baseline: KpiRecord, kpis: KpiRecord)
    requires kpis.Keys == METRICS && baseline.Keys == METRICS
  {
    AllMetrics(g.metric);
    && e.metric == g.metric && (e.passed <==> KeepsLimit(g, baseline, kpis))
    && (e.regression.Some? <==> baseline[g.metric].Some? && kpis[g.metric].Some?)
    && (e.regression.Some? ==>
          var loss := Worsening(g.metric, baseline[g.metric].value, kpis[g.metric].value);
          e.regression.value >= 0.0 && e.regression.value >= loss && e.regression.value in {0.0, loss})
  }

  function EvaluateGuardrail(kpis: KpiRecord, g: Guardrail, baseline: KpiRecord): GuardrailEvaluation
    requires kpis.Keys == METRICS && baseline.Keys == METRICS && g.metric in METRICS
  {
    var before, actual := baseline[g.metric], kpis[g.metric];
    if before.None? || actual.None? then GuardrailEvaluation(g.metric, None, false)
    else
      var loss := if g.metric in LOWER_IS_BETTER then actual.value - before.value else before.value - actual.value;
      var regression := if loss > 0.0 then loss else 0.0;
      GuardrailEvaluation(g.metric, Some(regression), regression <= g.maxRegression)
  }

  function GuardrailResults(kpis: KpiRecord, guardrails: seq<Guardrail>, baseline: KpiRecord): (r: seq<GuardrailEvaluation>)
    requires kpis.Keys == METRICS && baseline.Keys == METRICS
    ensures |r| == |guardrails|
  {
    seq(|guardrails|, i requires 0 <= i < |guardrails| =>
      (AllMetrics(guardrails[i].metric); EvaluateGuardrail(kpis, guardrails[i], baseline)))
  }

  method EvaluateGuardrails(kpis: KpiRecord, guardrails: seq<Guardrail>, baseline: KpiRecord)
    returns (evaluations: seq<GuardrailEvaluation>)
    requires kpis.Keys == METRICS && baseline.Keys == METRICS
    ensures evaluations == GuardrailResults(kpis, guardrails, baseline)
    ensures |evaluations| == |guardrails|
    ensures forall i :: 0 <= i < |guardrails| ==> JudgesLimit(evaluations[i], guardrails[i], baseline, kpis)
  {
    hide JudgesLimit, EvaluateGuardrail;
    evaluations := [];
    for i := 0 to |guardrails|
      invariant evaluations == GuardrailResults(kpis, guardrails, baseline)[..i]
      invariant forall k :: 0 <= k < i ==> JudgesLimit(evaluations[k], guardrails[k], baseline, kpis)
    {
      AllMetrics(guardrails[i].metric);
      GuardrailJudgesLimit(kpis, guardrails[i], baseline);
      evaluations := evaluations + [EvaluateGuardrail(kpis, guardrails[i], baseline)];
    }
  }

  lemma GuardrailJudgesLimit(kpis: KpiRecord, g: Guardrail, baseline: KpiRecord)
    requires kpis.Keys == METRICS && baseline.Keys == METRICS
    ensures g.metric in METRICS && JudgesLimit(EvaluateGuardrail(kpis, g, baseline), g, baseline, kpis)
  {
    AllMetrics(g.metric);
    assert g.metric in LOWER_IS_BETTER <==> g.metric in {UncoveredArea, OverlapArea, AverageOverlap};
  }

  /** All guardrails pass exactly when all their limits are kept. */
  lemma GuardrailsPassIff(kpis: KpiRecord, guardrails: seq<Guardrail>, baseline: KpiRecord)
    requires kpis.Keys == METRICS && baseline.Keys == METRICS
    ensures GuardrailsPassed(GuardrailResults(kpis, guardrails, baseline))
       <==> forall i :: 0 <= i < |guardrails| ==> KeepsLimit(guardrails[i], baseline, kpis)
  {
    hide KeepsLimit, EvaluateGuardrail;
    var results := GuardrailResults(kpis, guardrails, baseline);
    forall i | 0 <= i < |guardrails| ensures results[i].passed <==> KeepsLimit(guardrails[i], baseline, kpis) {
      AllMetrics(guardrails[i].metric);
      GuardrailJudgesLimit(kpis, guardrails[i], baseline);
    }
  }

  // ---------- Evaluations

  datatype Evaluation = Evaluation(
    kpis: KpiRecord, evaluations: seq<ObjectiveEvaluation>, guardrails: seq<GuardrailEvaluation>,
    objectivesPassed: bool, guardrailsPassed: bool, passed: bool)

  predicate ObjectivesPassed(evaluations: seq<ObjectiveEvaluation>) {
    forall i :: 0 <= i < |evaluations| ==> evaluations[i].passed
  }

  predicate GuardrailsPassed(guardrails: seq<GuardrailEvaluation>) {
    forall i :: 0 <= i < |guardrails| ==> guardrails[i].passed
  }

  function Judged(kpis: KpiRecord, evaluations: seq<ObjectiveEvaluation>, guardrails: seq<GuardrailEvaluation>): Evaluation {
    Evaluation(kpis, evaluations, guardrails, ObjectivesPassed(evaluations), GuardrailsPassed(guardrails),
               ObjectivesPassed(evaluations) && GuardrailsPassed(guardrails))
  }

  datatype TrialError = SimulationFailed | NoCoverageCells | BadGrid(error: KpiError)

  /** The goals of a request. */
  datatype Goals = Goals(objectives: seq<Objective>, guardrails: seq<Guardrail>)

  ghost predicate ValidGoals(goals: Goals) {
    forall g :: g in goals.guardrails ==> g.maxRegression >= 0.0
  }

  /** Judging one simulation result; the starting setup, which has no predecessor, is its own baseline. */
  function Evaluate(result: Option<Grid>, goals: Goals, baselineKpis: Option<KpiRecord>): (r: Result<Evaluation, TrialError>)
    requires baselineKpis.Some? ==> baselineKpis.value.Keys == METRICS
    ensures r.Ok? ==> r.value.kpis.Keys == METRICS
  {
    if result.None? then Err(SimulationFailed)
    else if result.value.cells == [] then Err(NoCoverageCells)
    else
      match ExtractKpis(result.value)
      case Err(e) => Err(BadGrid(e))
      case Ok(kpis) =>
        match EvaluateObjectives(result.value.cells, kpis, goals.objectives)
        case Err(e) => Err(BadGrid(e))
        case Ok(evaluations) =>
          var baseline := if baselineKpis.Some? then baselineKpis.value else kpis;
          Ok(Judged(kpis, evaluations, GuardrailResults(kpis, goals.guardrails, baseline)))
  }

  /** What the request validators promise of an objective's parameters. */
  predicate Evaluable(o: Objective) {
    match o
    case Aggregate(_, _, _) => true
    case AreaAbove(_, thresholdOp, _, _, _) => thresholdOp != Equal
    case AtPercentile(_, percentile, _, _) => 0.0 < percentile <= 100.0
  }

  lemma {:induction false} ObjectivesEvaluateIff(cells: seq<Cell>, kpis: KpiRecord, objectives: seq<Objective>)
    requires kpis.Keys == METRICS
    ensures EvaluateObjectives(cells, kpis, objectives).Ok? <==> forall o :: o in objectives ==> Evaluable(o)
  {
    hide EvaluateObjective, Evaluable;
    if objectives != [] {
      var rest, last := objectives[..|objectives| - 1], objectives[|objectives| - 1];
      ObjectivesEvaluateIff(cells, kpis, rest);
      OneEvaluatesIff(cells, kpis, last);
      assert forall o :: o in objectives <==> o in rest || o == last;
    }
  }

  lemma OneEvaluatesIff(cells: seq<Cell>, kpis: KpiRecord, o: Objective)
    requires kpis.Keys == METRICS
    ensures EvaluateObjective(cells, kpis, o).Ok? <==> Evaluable(o)
  {
  }

  /** A candidate's trial succeeds exactly when its simulation returns cells, all well formed, and the objectives are valid. */
  lemma EvaluationSucceedsIff(result: Option<Grid>, goals: Goals, baselineKpis: Option<KpiRecord>)
    requires baselineKpis.Some? ==> baselineKpis.value.Keys == METRICS
    ensures Evaluate(result, goals, baselineKpis).Ok?
       <==> && result.Some? && result.value.cells != [] && WellFormed(result.value.cells)
            && forall o :: o in goals.objectives ==> Evaluable(o)
  {
    hide EvaluateObjectives, Evaluable, GuardrailResults;
    if result.Some? && ExtractKpis(result.value).Ok? {
      ObjectivesEvaluateIff(result.value.cells, ExtractKpis(result.value).value, goals.objectives);
    }
  }

  ghost predicate GuardrailKpisDefined(kpis: KpiRecord, guardrails: seq<Guardrail>)
    requires kpis.Keys == METRICS
  {
    forall g :: g in guardrails ==> g.metric in METRICS && kpis[g.metric].Some?
  }

  /** A setup compared with itself passes its guardrails exactly when all guardrail KPIs are defined for it. */
  lemma SelfComparison(kpis: KpiRecord, guardrails: seq<Guardrail>)
    requires kpis.Keys == METRICS && forall g :: g in guardrails ==> g.maxRegression >= 0.0
    ensures GuardrailsPassed(GuardrailResults(kpis, guardrails, kpis)) <==> GuardrailKpisDefined(kpis, guardrails)
  {
    var results := GuardrailResults(kpis, guardrails, kpis);
    forall i | 0 <= i < |guardrails|
      ensures guardrails[i].metric in METRICS && (results[i].passed <==> kpis[guardrails[i].metric].Some?)
    {
      AllMetrics(guardrails[i].metric);
      assert guardrails[i] in guardrails;
    }
    if GuardrailsPassed(results) {
      forall g | g in guardrails ensures g.metric in METRICS && kpis[g.metric].Some? {
        var i :| 0 <= i < |guardrails| && guardrails[i] == g;
        assert results[i].passed;
      }
    }
  }

  /** Without a baseline value no candidate passes that guardrail. */
  lemma UndefinedBaselineFailsAll(result: Option<Grid>, goals: Goals, baselineKpis: KpiRecord)
    requires baselineKpis.Keys == METRICS && Evaluate(result, goals, Some(baselineKpis)).Ok?
    requires Evaluate(result, goals, Some(baselineKpis)).value.guardrailsPassed
    ensures GuardrailKpisDefined(baselineKpis, goals.guardrails)
  {
    var results := Evaluate(result, goals, Some(baselineKpis)).value.guardrails;
    forall g | g in goals.guardrails ensures g.metric in METRICS && baselineKpis[g.metric].Some? {
      var i :| 0 <= i < |goals.guardrails| && goals.guardrails[i] == g;
      AllMetrics(g.metric);
      assert results[i].passed;
    }
  }

  /** Judged against its own KPIs, a result is judged as a starting setup. */
  lemma OwnBaseline(result: Option<Grid>, goals: Goals)
    requires Evaluate(result, goals, None).Ok?
    ensures Evaluate(result, goals, Some(Evaluate(result, goals, None).value.kpis)) == Evaluate(result, goals, None)
  {
    hide ExtractKpis, GuardrailResults, EvaluateObjectives, GuardrailsPassed, ObjectivesPassed;
  }

  // ---------- The rank

  datatype Rank = Rank(guardrailsFailed: bool, objectivesFailed: bool, gap: Gap, failures: nat, cost: ChangeCost)

  function AddGap(gap: Gap, item: ObjectiveEvaluation): Gap {
    if gap.Infinite? || item.score.Infinite? then Infinite
    else Finite(gap.value + item.score.value / item.scale)
  }

  function NormalizedGap(evaluations: seq<ObjectiveEvaluation>): Gap {
    if evaluations == [] then Finite(0.0)
    else AddGap(NormalizedGap(evaluations[..|evaluations| - 1]), evaluations[|evaluations| - 1])
  }

  function Failures(evaluations: seq<ObjectiveEvaluation>): nat {
    CountIf(evaluations, (e: ObjectiveEvaluation) => !e.passed)
  }

  function OptimizationRank(e: Evaluation, cost: ChangeCost): Rank {
    Rank(!e.guardrailsPassed, !e.objectivesPassed, NormalizedGap(e.evaluations), Failures(e.evaluations), cost)
  }

  predicate GapLess(a: Gap, b: Gap) {
    a.Finite? && (b.Infinite? || a.value < b.value)
  }

  /** The first four parts of the rank, without the operational tie breakers. */
  predicate RefinementLess(a: Rank, b: Rank) {
    if a.guardrailsFailed != b.guardrailsFailed then !a.guardrailsFailed
    else if a.objectivesFailed != b.objectivesFailed then !a.objectivesFailed
    else if a.gap != b.gap then GapLess(a.gap, b.gap)
    else a.failures < b.failures
  }

  predicate RankLess(a: Rank, b: Rank) {
    if a.guardrailsFailed != b.guardrailsFailed then !a.guardrailsFailed
    else if a.objectivesFailed != b.objectivesFailed then !a.objectivesFailed
    else if a.gap != b.gap then GapLess(a.gap, b.gap)
    else if a.failures != b.failures then a.failures < b.failures
    else if a.cost.changedAntennas != b.cost.changedAntennas then a.cost.changedAntennas < b.cost.changedAntennas
    else a.cost.magnitude < b.cost.magnitude
  }

  predicate RankLeq(a: Rank, b: Rank) {
    !RankLess(b, a)
  }

  /** Ranks are totally ordered. */
  lemma RankIsTotalOrder(a: Rank, b: Rank, c: Rank)
    ensures RankLeq(a, b) || RankLeq(b, a)
    ensures RankLeq(a, b) && RankLeq(b, a) ==> a == b
    ensures RankLeq(a, b) && RankLeq(b, c) ==> RankLeq(a, c)
    ensures RankLess(a, b) && RankLeq(b, c) ==> RankLess(a, c)
    ensures RankLeq(a, b) && RankLess(b, c) ==> RankLess(a, c)
  {
  }

  /** A candidate that changes nothing loses ties to nobody: whoever ranks better improves goal fit. */
  lemma BetterThanNoChange(a: Rank, b: Rank)
    requires RankLess(a, b) && b.cost.changedAntennas == 0 && (a.cost.changedAntennas == 0 ==> a.cost.magnitude >= b.cost.magnitude)
    ensures RefinementLess(a, b)
  {
  }

  /** One evaluation adds nothing to the gap if it passes, and never lowers it. */
  lemma GapOfOne(cells: seq<Cell>, kpis: KpiRecord, o: Objective, gap: Gap)
    requires kpis.Keys == METRICS && EvaluateObjective(cells, kpis, o).Ok?
    requires gap.Finite? ==> gap.value >= 0.0
    ensures var item := EvaluateObjective(cells, kpis, o).value;
            && (item.passed ==> AddGap(gap, item) == gap)
            && (AddGap(gap, item).Finite? ==> AddGap(gap, item).value >= 0.0)
  {
    var item := EvaluateObjective(cells, kpis, o).value;
    if item.actual.Some? {
      ScoreMeasuresShortfall(item.actual.value, o.op, o.target, item.actual.value);
      assert item.score.value / item.scale >= 0.0;
      assert item.score.value == 0.0 ==> item.score.value / item.scale == 0.0;
    }
  }

  lemma {:induction false} PassingHasNoGap(cells: seq<Cell>, kpis: KpiRecord, objectives: seq<Objective>)
    requires kpis.Keys == METRICS && EvaluateObjectives(cells, kpis, objectives).Ok?
    ensures var evaluations := EvaluateObjectives(cells, kpis, objectives).value;
            && |evaluations| == |objectives|
            && (ObjectivesPassed(evaluations) ==> NormalizedGap(evaluations) == Finite(0.0))
            && (ObjectivesPassed(evaluations) <==> Failures(evaluations) == 0)
            && (NormalizedGap(evaluations).Finite? ==> NormalizedGap(evaluations).value >= 0.0)
  {
    hide EvaluateObjective, AddGap;
    if objectives != [] {
      var rest, last := objectives[..|objectives| - 1], objectives[|objectives| - 1];
      PassingHasNoGap(cells, kpis, rest);
      var early, all := EvaluateObjectives(cells, kpis, rest).value, EvaluateObjectives(cells, kpis, objectives).value;
      assert all[..|early|] == early;
      GapOfOne(cells, kpis, last, NormalizedGap(early));
    }
  }

  /** All candidates that meet every target tie on goal fit, so only the cost of their changes orders them. */
  lemma PassingCandidatesOrderedByCost(first: Option<Grid>, second: Option<Grid>, goals: Goals, baselineKpis: Option<KpiRecord>,
                                       c: ChangeCost, d: ChangeCost)
    requires baselineKpis.Some? ==> baselineKpis.value.Keys == METRICS
    requires Evaluate(first, goals, baselineKpis).Ok? && Evaluate(first, goals, baselineKpis).value.passed
    requires Evaluate(second, goals, baselineKpis).Ok?
    ensures var a, b := Evaluate(first, goals, baselineKpis).value, Evaluate(second, goals, baselineKpis).value;
            && !RefinementLess(OptimizationRank(b, d), OptimizationRank(a, c))
            && (RankLess(OptimizationRank(b, d), OptimizationRank(a, c)) <==>
                  b.passed && (d.changedAntennas < c.changedAntennas || (d.changedAntennas == c.changedAntennas && d.magnitude < c.magnitude)))
  {
    PassingHasNoGap(first.value.cells, ExtractKpis(first.value).value, goals.objectives);
    PassingHasNoGap(second.value.cells, ExtractKpis(second.value).value, goals.objectives);
  }

  // ---------- Tested candidates

  /** A tested candidate; its cost is computed only when the test succeeded. */
  datatype Trial = Trial(candidate: Candidate, outcome: Result<Evaluation, TrialError>, cost: ChangeCost)

  /** A successful trial with its rank. */
  datatype Node = Node(trial: Trial, rank: Rank)

  function NodeLeq(): (Node, Node) -> bool {
    (a: Node, b: Node) => RankLeq(a.rank, b.rank)
  }

  lemma NodeLeqTotal()
    ensures TotalPreorder(NodeLeq())
  {
    forall a: Node, b: Node, c: Node
      ensures NodeLeq()(a, b) || NodeLeq()(b, a)
      ensures NodeLeq()(a, b) && NodeLeq()(b, c) ==> NodeLeq()(a, c)
    {
      RankIsTotalOrder(a.rank, b.rank, c.rank);
    }
  }
}
