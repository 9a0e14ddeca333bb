/**
  What an optimization recommends, told by readings, targets, limits and changes: the verdicts on every
  trial, the order of the ranking, and the guardrails that a recommendation keeps.
  Source: backend/services/optimization_service.py
*/
module RecommendationOrder {
  import opened Wrappers
  import opened StableSort
  import opened Kpis
  import opened AntennaSettings
  import opened Candidates
  import opened RequestBuilder
  import opened CandidateRanking
  import opened GoalFit
  import opened OptimizationState
  import opened CoverageOptimizer
  import opened OptimizerGuarantees

  // ---------- Verdicts

  /** The verdict on a trial, given the KPIs of the starting setup, is the one that its simulated grid deserves. */
  ghost predicate RightlyJudged(problem: Problem, settings: Settings, e: Evaluation, baseline: KpiRecord)
    requires baseline.Keys == METRICS
  {
    var objectives, result := problem.goals.objectives, problem.simulate(Updated(problem.space.antennas, settings));
    && result.Some? && result.value.cells != [] && ExtractKpis(result.value) == Ok(e.kpis)
    && IsMeasured(objectives, e)
    && (forall i :: 0 <= i < |objectives| ==> IsActual(result.value.cells, e.kpis, objectives[i], e.evaluations[i].actual))
    && (e.guardrailsPassed <==>
          forall i :: 0 <= i < |problem.goals.guardrails| ==> KeepsLimit(problem.goals.guardrails[i], baseline, e.kpis))
    && (e.passed <==> e.objectivesPassed && e.guardrailsPassed)
  }

  lemma JudgedRightly(problem: Problem, settings: Settings, baseline: KpiRecord)
    requires baseline.Keys == METRICS && Judge(problem, settings, Some(baseline)).Ok?
    ensures RightlyJudged(problem, settings, Judge(problem, settings, Some(baseline)).value, baseline)
  {
    hide ExtractKpis, EvaluateObjectives, GuardrailResults, KeepsLimit, IsActual, Updated, ObjectivesPassed, GuardrailsPassed;
    hide NormalizedGap, Failures, TotalShortfall, Missed;
    var grid := problem.simulate(Updated(problem.space.antennas, settings)).value;
    var e := Judge(problem, settings, Some(baseline)).value;
    EvaluationsMeasured(grid.cells, e.kpis, problem.goals.objectives);
    GuardrailsPassIff(e.kpis, problem.goals.guardrails, baseline);
  }

  /** Every successful trial of a report is rightly judged against the starting setup. */
  lemma TrialsAreRightlyJudged(problem: Problem, report: Report, i: nat)
    requires ValidProblem(problem) && IsReport(problem, report) && i < |report.trials| && report.trials[i].outcome.Ok?
    ensures report.baseline.outcome.Ok? && report.baseline.outcome.value.kpis.Keys == METRICS
    ensures RightlyJudged(problem, report.trials[i].candidate.settings, report.trials[i].outcome.value, report.baseline.outcome.value.kpis)
  {
    hide IsReport, Judge, RightlyJudged, CostOf;
    OutcomeOf(problem, report, i);
    JudgedRightly(problem, report.trials[i].candidate.settings, report.baseline.outcome.value.kpis);
  }

  lemma JudgedIsMeasured(problem: Problem, settings: Settings, e: Evaluation, baseline: KpiRecord)
    requires baseline.Keys == METRICS && RightlyJudged(problem, settings, e, baseline)
    ensures IsMeasured(problem.goals.objectives, e)
    ensures e.guardrailsPassed
       <==> forall i :: 0 <= i < |problem.goals.guardrails| ==>
              e.kpis.Keys == METRICS && KeepsLimit(problem.goals.guardrails[i], baseline, e.kpis)
  {
    hide IsMeasured, KeepsLimit, IsActual;
  }

  // ---------- The recommendation

  /** How many antennas a trial changes, and by how much. */
  function Touches(problem: Problem, t: Trial): set<Id>
    requires t.candidate.settings.Keys <= Baseline(problem.space).Keys
  {
    set id | id in t.candidate.settings && t.candidate.settings[id] != Baseline(problem.space)[id]
  }

  /** `a` is recommended before `b`: the better goal fit, at equal fit fewer changed antennas, then the smaller changes. */
  ghost predicate Outranks(problem: Problem, a: Trial, b: Trial) {
    && a.outcome.Ok? && b.outcome.Ok?
    && IsMeasured(problem.goals.objectives, a.outcome.value) && IsMeasured(problem.goals.objectives, b.outcome.value)
    && (|| FitsBetter(problem.goals.objectives, a.outcome.value, b.outcome.value)
        || (FitsAlike(problem.goals.objectives, a.outcome.value, b.outcome.value)
            && (a.cost.changedAntennas < b.cost.changedAntennas
                || (a.cost.changedAntennas == b.cost.changedAntennas && a.cost.magnitude < b.cost.magnitude))))
  }

  lemma RankMeansOutranks(problem: Problem, report: Report, i: nat, j: nat)
    requires ValidProblem(problem) && IsReport(problem, report) && i < |report.trials| && j < |report.trials|
    requires report.trials[i].outcome.Ok? && report.trials[j].outcome.Ok?
    ensures IsMeasured(problem.goals.objectives, report.trials[i].outcome.value)
    ensures IsMeasured(problem.goals.objectives, report.trials[j].outcome.value)
    ensures RankLess(TrialRank(report.trials[i]), TrialRank(report.trials[j])) <==> Outranks(problem, report.trials[i], report.trials[j])
    ensures RefinementLess(TrialRank(report.trials[i]), TrialRank(report.trials[j]))
       <==> FitsBetter(problem.goals.objectives, report.trials[i].outcome.value, report.trials[j].outcome.value)
  {
    hide IsReport, RightlyJudged, IsMeasured, FitsBetter, FitsAlike, RankLess, RefinementLess, OptimizationRank;
    var a, b := report.trials[i], report.trials[j];
    TrialsAreRightlyJudged(problem, report, i);
    TrialsAreRightlyJudged(problem, report, j);
    JudgedIsMeasured(problem, a.candidate.settings, a.outcome.value, report.baseline.outcome.value.kpis);
    JudgedIsMeasured(problem, b.candidate.settings, b.outcome.value, report.baseline.outcome.value.kpis);
    RankIsGoalFit(problem.goals.objectives, a.outcome.value, b.outcome.value, a.cost, b.cost);
  }

  /** No trial outranks the recommendation, and none tested before it is its equal. */
  lemma NoneOutranksTheBest(problem: Problem, report: Report, i: nat)
    requires ValidProblem(problem) && IsReport(problem, report) && i < |report.trials| && report.trials[i].outcome.Ok?
    ensures report.best.outcome.Ok? && !Outranks(problem, report.trials[i], report.best)
    ensures exists b: nat :: b < |report.trials| && report.best == report.trials[b]
                             && (i < b ==> Outranks(problem, report.best, report.trials[i]))
  {
    hide IsReport, Outranks, RankLess, RefinementLess, TrialRank;
    var b := BestPlace(problem, report);
    RankMeansOutranks(problem, report, i, b);
    RankMeansOutranks(problem, report, b, i);
  }

  lemma ChangesCounted(problem: Problem, report: Report, i: nat)
    requires ValidProblem(problem) && IsReport(problem, report) && i < |report.trials| && report.trials[i].outcome.Ok?
    ensures report.trials[i].candidate.settings.Keys == Baseline(problem.space).Keys
    ensures report.trials[i].cost.changedAntennas == |Touches(problem, report.trials[i])|
    ensures report.trials[i].cost.magnitude == RoundToMillionths(TotalMagnitude(report.trials[i].candidate.changes))
  {
    hide IsReport, Baseline, Judge, TotalMagnitude, RoundToMillionths, AntennasOf, ChangesOf, SortedIds;
    OutcomeOf(problem, report, i);
    var settings := report.trials[i].candidate.settings;
    CostCountsChangedAntennas(problem.space, settings);
    assert Touches(problem, report.trials[i]) == ChangedAntennas(settings, Baseline(problem.space));
  }

  /**
    The recommendation against every other successful trial. It keeps the guardrails if any does; among
    equals it meets all objectives if any does; among equals no trial has a smaller total shortfall; at the
    same shortfall none misses fewer objectives; and if that is the same too, none changes fewer antennas, or
    as many by less.
  */
  lemma RecommendationFitsBest(problem: Problem, report: Report, i: nat)
    requires ValidProblem(problem) && IsReport(problem, report) && i < |report.trials| && report.trials[i].outcome.Ok?
    ensures report.best.outcome.Ok?
    ensures |report.best.outcome.value.evaluations| == |problem.goals.objectives| == |report.trials[i].outcome.value.evaluations|
    ensures report.trials[i].outcome.value.guardrailsPassed ==> report.best.outcome.value.guardrailsPassed
    ensures var objectives, best, other := problem.goals.objectives, report.best.outcome.value, report.trials[i].outcome.value;
            other.guardrailsPassed == best.guardrailsPassed ==>
              && (other.objectivesPassed ==> best.objectivesPassed)
              && (other.objectivesPassed == best.objectivesPassed ==>
                    && NoMoreThan(ShortfallOf(objectives, best), ShortfallOf(objectives, other))
                    && (ShortfallOf(objectives, best) == ShortfallOf(objectives, other) ==>
                          && MissedBy(objectives, best) <= MissedBy(objectives, other)
                          && (MissedBy(objectives, best) == MissedBy(objectives, other) ==>
                                NoCheaper(problem, report.trials[i], report.best))))
  {
    hide IsReport, ShortfallOf, MissedBy, IsMeasured;
    NoneOutranksTheBest(problem, report, i);
    var b := BestPlace(problem, report);
    RankMeansOutranks(problem, report, i, b);
    ChangesCounted(problem, report, i);
    ChangesCounted(problem, report, b);
    MeasuredLength(problem.goals.objectives, report.best.outcome.value);
    MeasuredLength(problem.goals.objectives, report.trials[i].outcome.value);
  }

  lemma MeasuredLength(objectives: seq<Objective>, e: Evaluation)
    requires IsMeasured(objectives, e)
    ensures |e.evaluations| == |objectives|
  {
  }

  /** `a` does not change fewer antennas than `b`, nor as many by less. */
  predicate NoCheaper(problem: Problem, a: Trial, b: Trial) {
    && a.candidate.settings.Keys == Baseline(problem.space).Keys == b.candidate.settings.Keys
    && |Touches(problem, b)| <= |Touches(problem, a)|
    && (|Touches(problem, b)| == |Touches(problem, a)| ==>
          RoundToMillionths(TotalMagnitude(b.candidate.changes)) <= RoundToMillionths(TotalMagnitude(a.candidate.changes)))
  }

  /** A recommendation other than the starting setup fits the goals better than the starting setup does. */
  lemma ChangesImproveFit(problem: Problem, report: Report)
    requires ValidProblem(problem) && IsReport(problem, report)
    ensures report.best.outcome.Ok? && report.baseline.outcome.Ok?
    ensures |report.best.outcome.value.evaluations| == |problem.goals.objectives| == |report.baseline.outcome.value.evaluations|
    ensures report.best != report.baseline ==>
              FitsBetter(problem.goals.objectives, report.best.outcome.value, report.baseline.outcome.value)
  {
    hide IsReport, FitsBetter, RankLess, RefinementLess, IsMeasured, TrialRank;
    ChangesOnlyForBetterFit(problem, report);
    var b := BestPlace(problem, report);
    RankMeansOutranks(problem, report, b, 0);
    MeasuredLength(problem.goals.objectives, report.best.outcome.value);
    MeasuredLength(problem.goals.objectives, report.baseline.outcome.value);
  }

  /**
    A recommendation whose guardrails passed keeps every limit: against the starting setup, covered area and
    the tenth percentiles have fallen, and uncovered area, overlap area and average overlap have risen, by
    no more than the limit of their guardrail. And it has not passed if one limit is broken.
  */
  lemma RecommendationKeepsLimits(problem: Problem, report: Report)
    requires ValidProblem(problem) && IsReport(problem, report)
    ensures report.best.outcome.Ok? && report.baseline.outcome.Ok?
    ensures report.baseline.outcome.value.kpis.Keys == METRICS == report.best.outcome.value.kpis.Keys
    ensures report.best.outcome.value.guardrailsPassed
       <==> forall i :: 0 <= i < |problem.goals.guardrails| ==>
              KeepsLimit(problem.goals.guardrails[i], report.baseline.outcome.value.kpis, report.best.outcome.value.kpis)
  {
    hide IsReport, KeepsLimit, RightlyJudged;
    var b := BestPlace(problem, report);
    TrialsAreRightlyJudged(problem, report, b);
    KpisOfJudged(problem, report.best.candidate.settings, report.best.outcome.value, report.baseline.outcome.value.kpis);
    JudgedIsMeasured(problem, report.best.candidate.settings, report.best.outcome.value, report.baseline.outcome.value.kpis);
  }

  lemma KpisOfJudged(problem: Problem, settings: Settings, e: Evaluation, baseline: KpiRecord)
    requires baseline.Keys == METRICS && RightlyJudged(problem, settings, e, baseline)
    ensures e.kpis.Keys == METRICS
  {
    hide IsMeasured, KeepsLimit, IsActual;
  }

  /** The ranking from which the alternatives are taken has no trial before one that outranks it. */
  lemma RankingFollowsOrder(problem: Problem, report: Report, i: nat, j: nat)
    requires ValidProblem(problem) && IsReport(problem, report) && i < j < |RankedTrials(report.trials)|
    ensures !Outranks(problem, RankedTrials(report.trials)[j], RankedTrials(report.trials)[i])
  {
    hide IsReport, Outranks, RankLess, RefinementLess, TrialRank, SortBy;
    RecommendationAndAlternatives(problem, report);
    var ranked := RankedTrials(report.trials);
    var p := PlaceInTrials(report, ranked[i]);
    var q := PlaceInTrials(report, ranked[j]);
    RankMeansOutranks(problem, report, q, p);
    assert TrialLeq()(ranked[i], ranked[j]);
  }

  /** A round that advanced has a trial that fits the goals better than the trial it was derived from. */
  lemma RoundsImproveFit(problem: Problem, report: Report, round: nat)
    requires ValidProblem(problem) && IsReport(problem, report) && Advances(report.trials, round)
    ensures exists i: nat, p: nat :: i < |report.trials| && p < |report.trials| && IsRound(report.trials[i], round)
              && report.trials[i].candidate.parent == Some(report.trials[p].candidate.id)
              && ImprovesOn(problem, report.trials[i], report.trials[p])
  {
    hide IsReport, TrialRank, FitsBetter, RefinementLess, RankLess, Outranks, IsMeasured;
    var i, p :| 0 <= i < |report.trials| && 0 <= p < |report.trials| && IsRound(report.trials[i], round)
                && report.trials[i].outcome.Ok? && report.trials[p].outcome.Ok?
                && report.trials[i].candidate.parent == Some(report.trials[p].candidate.id)
                && RefinementLess(TrialRank(report.trials[i]), TrialRank(report.trials[p]));
    RankMeansOutranks(problem, report, i, p);
    MeasuredLength(problem.goals.objectives, report.trials[i].outcome.value);
    MeasuredLength(problem.goals.objectives, report.trials[p].outcome.value);
    assert ImprovesOn(problem, report.trials[i], report.trials[p]);
  }

  predicate ImprovesOn(problem: Problem, a: Trial, b: Trial) {
    && a.outcome.Ok? && b.outcome.Ok?
    && |a.outcome.value.evaluations| == |problem.goals.objectives| == |b.outcome.value.evaluations|
    && FitsBetter(problem.goals.objectives, a.outcome.value, b.outcome.value)
  }

  lemma PlaceInTrials(report: Report, t: Trial) returns (k: nat)
    requires multiset(RankedTrials(report.trials)) == multiset(Successes(report.trials)) && t in RankedTrials(report.trials)
    ensures k < |report.trials| && report.trials[k] == t && t.outcome.Ok?
  {
    assert t in multiset(RankedTrials(report.trials));
    assert t in Successes(report.trials);
    k :| k < |report.trials| && report.trials[k] == t;
  }
}
