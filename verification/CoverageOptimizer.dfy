/**
  The optimization run as a whole, and the report it returns.
  Source: backend/services/optimization_service.py
*/
module CoverageOptimizer {
  import opened Wrappers
  import opened StableSort
  import opened Kpis
  import opened AntennaSettings
  import opened SearchGrid
  import opened Candidates
  import opened RequestBuilder
  import opened CandidateRanking
  import opened CandidateGenerators
  import opened DiverseBeam
  import opened OptimizationState
  import opened BeamRefinement

  datatype StopReason = TargetsMet | BudgetExhausted | RefinementStalled | SearchSpaceExhausted

  datatype Report = Report(
    baseline: Trial, best: Trial, bestRequest: seq<Antenna>, bestResult: Option<Grid>,
    trials: seq<Trial>, alternatives: seq<Trial>, stopReason: StopReason,
    plannedTotal: nat, searchSpaceSize: nat, exhaustive: bool, beamWidth: nat,
    globalTested: nat, roundsCompleted: nat, prunedBranches: nat)

  function Successes(trials: seq<Trial>): (r: seq<Trial>)
    ensures forall t :: t in r <==> t in trials && t.outcome.Ok?
  {
    if trials == [] then []
    else
      var last := trials[|trials| - 1];
      assert forall t :: t in trials <==> t in trials[..|trials| - 1] || t == last;
      Successes(trials[..|trials| - 1]) + if last.outcome.Ok? then [last] else []
  }

  /** The order of `ranked_trials`; failed trials, which never occur in it, come last. */
  function TrialLeq(): (Trial, Trial) -> bool {
    (a: Trial, b: Trial) => b.outcome.Err? || (a.outcome.Ok? && RankLeq(TrialRank(a), TrialRank(b)))
  }

  function RankedTrials(trials: seq<Trial>): seq<Trial> {
    SortBy(Successes(trials), TrialLeq())
  }

  function Without(trials: seq<Trial>, id: CandidateId): seq<Trial> {
    if trials == [] then []
    else
      var last := trials[|trials| - 1];
      Without(trials[..|trials| - 1], id) + if last.candidate.id != id then [last] else []
  }

  function Alternatives(trials: seq<Trial>, best: Trial): seq<Trial> {
    var others := Without(RankedTrials(trials), best.candidate.id);
    others[..Min(|others|, 3)]
  }

  /** How a run was refined: its first frontier, its rounds, and the frontier it had come to. */
  datatype Refinement = Refinement(start: seq<Node>, rounds: seq<Round>, last: seq<Node>)

  /**
    The refinement behind a report. A large grid with budget left starts from the diverse beam of all
    explored successes, and stops short of the budget only after a round without advance or when all
    admissible neighbours of the last frontier have been tested.
  */
  ghost predicate IsRefinement(problem: Problem, report: Report, dims: seq<Dimension>, r: Refinement)
    requires ValidProblem(problem)
  {
    && report.globalTested <= |report.trials|
    && (if report.exhaustive || report.globalTested >= problem.maxCandidates then r.start == []
        else r.start != [] && IsDiverseBeam(NodesOf(report.trials[..report.globalTested]), report.beamWidth, dims, r.start))
    && IsHistory(r.rounds, r.start, report.trials, dims, report.beamWidth)
    && report.prunedBranches == TotalPruned(r.rounds)
    && (report.roundsCompleted == |r.rounds|
        || (report.roundsCompleted == |r.rounds| + 1
            && UsedUp(r.rounds, r.start, r.last, problem, report.trials, dims, report.beamWidth)))
    && (!report.exhaustive && |report.trials| < problem.maxCandidates && !StalledAt(report.trials, report.roundsCompleted) ==>
          report.roundsCompleted == |r.rounds| + 1)
  }

  /**
    What the trials tell about the refinement: where its candidates come from, and that every round but
    the last was an advance.
  */
  ghost predicate RefinementIsSound(problem: Problem, report: Report, dims: seq<Dimension>)
    requires ValidProblem(problem)
  {
    && Lineage(report.trials, dims)
    && (exists r :: IsRefinement(problem, report, dims, r))
    && (forall i :: 0 <= i < |report.trials| ==> (report.trials[i].candidate.id.Beam? <==> report.globalTested <= i))
    && (forall round: nat :: 1 <= round < report.roundsCompleted ==> Advances(report.trials, round))
    && (report.exhaustive ==> report.roundsCompleted == 0)
    && (!report.exhaustive && |report.trials| < problem.maxCandidates ==> report.roundsCompleted >= 1)
  }

  /** Each stop reason is given exactly when it applies. */
  ghost predicate StopReasonIsRight(problem: Problem, report: Report) {
    var passed := report.best.outcome.Ok? && report.best.outcome.value.passed;
    var budgetLeft := |report.trials| < problem.maxCandidates;
    var stalled := StalledAt(report.trials, report.roundsCompleted);
    && (report.stopReason == TargetsMet <==> passed)
    && (report.stopReason == BudgetExhausted <==> !passed && !budgetLeft)
    && (report.stopReason == RefinementStalled <==> !passed && budgetLeft && stalled)
    && (report.stopReason == SearchSpaceExhausted <==> !passed && budgetLeft && !stalled)
  }

  /** Exploration of a large grid used its quota of trials or ran out of ideas. */
  ghost predicate ExplorationIsSound(problem: Problem, report: Report, dims: seq<Dimension>)
    requires ValidProblem(problem) && AreDimensions(dims, problem.space)
  {
    && report.beamWidth == BeamWidth(problem.maxCandidates)
    && (!report.exhaustive ==>
          report.globalTested <= 1 + GlobalLimit(problem.maxCandidates, report.beamWidth)
          && Explored(problem, dims, report.globalTested, GlobalLimit(problem.maxCandidates, report.beamWidth), Tested(report.trials)))
    && (!report.exhaustive && 1 < report.globalTested <= |report.trials| ==>
          ExploredInOrder(problem, dims, report.trials, report.globalTested))
  }

  /** What every report states truly about its run. */
  ghost predicate IsReport(problem: Problem, report: Report)
    requires ValidProblem(problem)
  {
    && Consistent(problem, report.trials)
    && report.baseline == report.trials[0]
    && (exists b: nat :: IsBest(report.trials, b) && report.best == report.trials[b])
    && report.bestRequest == Updated(problem.space.antennas, report.best.candidate.settings)
    && report.bestResult == problem.simulate(report.bestRequest)
    && report.alternatives == Alternatives(report.trials, report.best)
    && (exists dims :: AreDimensions(dims, problem.space) && report.searchSpaceSize == Size(dims)
                       && ExplorationIsSound(problem, report, dims) && RefinementIsSound(problem, report, dims))
    && report.plannedTotal == Min(problem.maxCandidates, report.searchSpaceSize)
    && 1 <= report.globalTested <= |report.trials| <= report.plannedTotal
    && report.exhaustive == (report.searchSpaceSize <= problem.maxCandidates)
    && (report.exhaustive ==> Complete(problem, report.trials) && report.globalTested == |report.trials|)
    && StopReasonIsRight(problem, report)
  }

  lemma NotStalled(trials: seq<Trial>, round: nat)
    ensures NoTrialOf(trials, round) ==> !StalledAt(trials, round)
  {
  }

  method MakeReport(run: OptimizationRun, dims: seq<Dimension>, plannedTotal: nat, beamWidth: nat, globalTested: nat,
                    rounds: nat, stalled: bool, pruned: nat, ghost r: Refinement)
    returns (report: Report)
    requires run.Valid() && run.trials != [] && AreDimensions(dims, run.problem.space)
    requires plannedTotal == Min(run.problem.maxCandidates, Size(dims)) && 1 <= globalTested <= |run.trials| <= plannedTotal
    requires Size(dims) <= run.problem.maxCandidates ==>
               Complete(run.problem, run.trials) && globalTested == |run.trials| && rounds == 0
    requires beamWidth == BeamWidth(run.problem.maxCandidates)
    requires IsHistory(r.rounds, r.start, run.trials, dims, beamWidth) && pruned == TotalPruned(r.rounds)
    requires if Size(dims) <= run.problem.maxCandidates || globalTested >= run.problem.maxCandidates then r.start == []
             else r.start != [] && IsDiverseBeam(NodesOf(run.trials[..globalTested]), beamWidth, dims, r.start)
    requires rounds == |r.rounds|
          || (rounds == |r.rounds| + 1 && UsedUp(r.rounds, r.start, r.last, run.problem, run.trials, dims, beamWidth))
    requires Size(dims) > run.problem.maxCandidates ==>
               globalTested <= 1 + GlobalLimit(run.problem.maxCandidates, beamWidth)
               && Explored(run.problem, dims, globalTested, GlobalLimit(run.problem.maxCandidates, beamWidth), Tested(run.trials))
    requires Lineage(run.trials, dims)
    requires forall i :: 0 <= i < |run.trials| ==> (run.trials[i].candidate.id.Beam? <==> globalTested <= i)
    requires forall round: nat :: 1 <= round < rounds ==> Advances(run.trials, round)
    requires stalled ==> rounds >= 1 && StalledAt(run.trials, rounds)
    requires !stalled && |run.trials| < run.problem.maxCandidates ==> NoTrialOf(run.trials, rounds)
    requires Size(dims) > run.problem.maxCandidates && globalTested > 1 ==>
               ExploredInOrder(run.problem, dims, run.trials, globalTested)
    requires Size(dims) > run.problem.maxCandidates && |run.trials| < run.problem.maxCandidates ==>
               rounds >= 1 && (stalled || rounds == |r.rounds| + 1)
    ensures IsReport(run.problem, report)
  {
    hide AreDimensions, AntennaSettings.Valid, Consistent, IsBest, Size, Complete, IsReport, Alternatives, Updated;
    hide Lineage, Advances, StalledAt, UsedUp, Explored, ExploredInOrder, GlobalLimit, BeamWidth, NoTrialOf;
    hide IsHistory, IsDiverseBeam, NodesOf, TotalPruned;
    StartFacts(run.problem, run.trials);
    NotStalled(run.trials, rounds);
    var best := run.best.value;
    var stopReason :=
      if best.outcome.value.passed then TargetsMet
      else if |run.trials| >= run.problem.maxCandidates then BudgetExhausted
      else if stalled then RefinementStalled
      else SearchSpaceExhausted;
    report := Report(run.baseline.value, best, run.bestRequest, run.bestResult, run.trials, Alternatives(run.trials, best),
                     stopReason, plannedTotal, Size(dims), Size(dims) <= run.problem.maxCandidates, beamWidth,
                     globalTested, rounds, pruned);
    assert IsRefinement(run.problem, report, dims, r);
    ReportIsTrue(run.problem, report, dims, run.bestIndex);
  }

  /** What exploration of a large grid leaves behind. */
  ghost predicate LargeGridExplored(problem: Problem, dims: seq<Dimension>, trials: seq<Trial>, beamWidth: nat, signatures: set<Settings>)
    requires ValidProblem(problem) && AreDimensions(dims, problem.space) && beamWidth >= 1 && |trials| >= 1
  {
    && |trials| <= 1 + GlobalLimit(problem.maxCandidates, beamWidth)
    && Explored(problem, dims, |trials|, GlobalLimit(problem.maxCandidates, beamWidth), signatures)
    && (|trials| > 1 ==> ExploredInOrder(problem, dims, trials, |trials|))
  }

  lemma StaysExploredInOrder(problem: Problem, dims: seq<Dimension>, before: seq<Trial>, trials: seq<Trial>)
    requires ValidProblem(problem) && AreDimensions(dims, problem.space)
    requires 1 <= |before| <= |trials| && trials[..|before|] == before
    ensures ExploredInOrder(problem, dims, before, |before|) ==> ExploredInOrder(problem, dims, trials, |before|)
  {
    hide ChosenInOrder, ValidProblem, AreDimensions, Baseline;
    SameTrialSettings(before, trials);
  }

  lemma BeamIsNotEmpty(nodes: seq<Node>, beamWidth: nat, dims: seq<Dimension>, selected: seq<Node>)
    requires nodes != [] && IsDiverseBeam(nodes, beamWidth, dims, selected)
    ensures selected != []
  {
    hide SortBy, BeamPool, Spread;
  }

  /** From the end of the exploration on: the first frontier, its refinement, the report. */
  method RefineAndReport(run: OptimizationRun, seen: SeenSettings, dims: seq<Dimension>, globalNodes: seq<Node>, plannedTotal: nat, beamWidth: nat)
    returns (report: Report)
    requires Running(run, seen, dims, 0) && 1 <= |run.trials| <= plannedTotal && globalNodes != []
    requires beamWidth == BeamWidth(run.problem.maxCandidates) && plannedTotal == Min(run.problem.maxCandidates, Size(dims))
    requires globalNodes == NodesOf(run.trials)
    requires Size(dims) <= run.problem.maxCandidates ==> Complete(run.problem, run.trials)
    requires Size(dims) > run.problem.maxCandidates ==> LargeGridExplored(run.problem, dims, run.trials, beamWidth, seen.signatures)
    modifies run, seen
    ensures IsReport(run.problem, report)
  {
    hide AreDimensions, AntennaSettings.Valid, Baseline, Consistent, IsBest, IsNode, OnRecord, AllCovered, LegalFrontier, Spread, SortBy, Size, Complete, IsReport;
    hide Updated, Explored, ExploredInOrder, Tested, GlobalLimit, BeamWidth, Lineage, Advances, StalledAt, UsedUp, NoTrialOf, IsDiverseBeam, IsHistory, NodesOf, TotalPruned;
    var max := run.problem.maxCandidates;
    NoBeamYet(run.trials, seen.signatures, dims);
    RecordIsTested(run.trials, seen.signatures, 0);
    var globalTested := |run.trials|;
    var frontier: seq<Node> := [];
    if Size(dims) > max && |run.trials| < max {
      NodesCovered(run.problem, run.trials, globalNodes, dims);
      ghost var pool, m;
      frontier, pool, m := SelectDiverseBeam(globalNodes, beamWidth, dims);
      SelectedNodes(globalNodes, frontier);
      BeamIsNotEmpty(globalNodes, beamWidth, dims, frontier);
    }
    ghost var explored, start := run.trials, frontier;
    ghost var history, last;
    var rounds, stalled, pruned;
    rounds, stalled, pruned, history, last := RefineBeam(run, seen, frontier, dims, beamWidth);
    BeamFollows(explored, run.trials);
    TestedGrows(explored, run.trials);
    if Size(dims) > max {
      StaysExplored(run.problem, dims, globalTested, GlobalLimit(max, beamWidth), Tested(explored), Tested(run.trials));
      StaysExploredInOrder(run.problem, dims, explored, run.trials);
    }
    report := MakeReport(run, dims, plannedTotal, beamWidth, globalTested, rounds, stalled, pruned, Refinement(start, history, last));
  }

  /** `run_network_coverage_optimization`: fails exactly when the starting setup does. */
  method RunNetworkCoverageOptimization(problem: Problem) returns (r: Result<Report, OptimizationError>)
    requires ValidProblem(problem)
    ensures r.Err? <==> Judge(problem, Baseline(problem.space), None).Err?
    ensures r.Ok? ==> IsReport(problem, r.value)
  {
    hide Admissible, RecordsChanges, AreDimensions, AntennaSettings.Valid, Baseline, Consistent, IsBest, IsNode, OnRecord, AllCovered, LegalFrontier, Spread, SortBy, Size, Judge, Complete, IsReport;
    hide CeilSqrtFrom, Updated, Explored, ExploredInOrder, Tested, GlobalLimit, Lineage, Advances, StalledAt, NodesOf;
    var space, max := problem.space, problem.maxCandidates;
    var beamWidth := BeamWidth(max);
    var baselineCandidate := ParameterCandidate(BaselineId, Baseline(space), space, None);
    var dims := OptimizationDimensions(space);
    var size := Size(dims);
    var plannedTotal := Min(max, size);
    var seen := new SeenSettings(Baseline(space));
    var run := new OptimizationRun(problem);
    BaselineIsAdmissible(space);
    SizeOfRequest(space, dims);
    var first := run.RunCandidate(baselineCandidate);
    if first.Err? {
      return Err(first.error);
    }
    StartFacts(problem, run.trials);
    FirstOnRecord(run.trials, seen.signatures, run.problem, dims);
    var globalNodes := [first.value.value];
    FirstNode(run.trials, first.value.value);
    if |run.trials| < plannedTotal {
      ghost var before := run.trials;
      var nodes := Explore(run, seen, dims, plannedTotal, beamWidth);
      StillNodes(globalNodes, before, run.trials);
      assert run.trials[..1] == before && run.trials[0] == before[0];
      FirstAndOthers(run.trials, globalNodes[0], nodes);
      globalNodes := globalNodes + nodes;
    } else {
      NoNodes(run.trials);
      FirstAndOthers(run.trials, globalNodes[0], []);
      SinglePoint(problem, dims, run.trials);
      SingleTrial(problem, dims, seen.signatures, beamWidth);
    }
    var report := RefineAndReport(run, seen, dims, globalNodes, plannedTotal, beamWidth);
    return Ok(report);
  }

  lemma FirstAndOthers(trials: seq<Trial>, first: Node, others: seq<Node>)
    requires trials != [] && first.trial == trials[0] && IsNode(first, trials) && others == NodesOf(trials[1..])
    ensures [first] + others == NodesOf(trials)
  {
    hide TrialRank, NodesOf;
    OneNode(trials[0]);
    NodesConcat([trials[0]], trials[1..]);
    assert trials == [trials[0]] + trials[1..];
  }

  lemma NoNodes(trials: seq<Trial>)
    requires |trials| == 1
    ensures NodesOf(trials[1..]) == []
  {
  }

  lemma TestedGrows(before: seq<Trial>, trials: seq<Trial>)
    requires |before| <= |trials| && trials[..|before|] == before
    ensures Tested(before) <= Tested(trials)
  {
    assert trials == before + trials[|before|..];
  }

  lemma RecordIsTested(trials: seq<Trial>, signatures: set<Settings>, rounds: nat)
    requires OnRecord(trials, signatures, rounds)
    ensures signatures == Tested(trials)
  {
  }

  lemma BeamFollows(explored: seq<Trial>, trials: seq<Trial>)
    requires |explored| <= |trials| && trials[..|explored|] == explored
    requires forall i :: 0 <= i < |explored| ==> !explored[i].candidate.id.Beam?
    requires forall i :: |explored| <= i < |trials| ==> trials[i].candidate.id.Beam?
    ensures forall i :: 0 <= i < |trials| ==> (trials[i].candidate.id.Beam? <==> |explored| <= i)
  {
    forall i | 0 <= i < |trials| ensures trials[i].candidate.id.Beam? <==> |explored| <= i {
      if i < |explored| {
        assert trials[..|explored|][i] == trials[i];
      }
    }
  }

  lemma SizeOfRequest(space: SearchSpace, dims: seq<Dimension>)
    requires Valid(space) && AreDimensions(dims, space)
    ensures Size(dims) >= 1
  {
    DimensionFacts(space, dims);
    SizePositive(dims);
  }

  lemma FirstOnRecord(trials: seq<Trial>, signatures: set<Settings>, problem: Problem, dims: seq<Dimension>)
    requires StartsWithBaseline(problem, trials) && |trials| == 1
    requires signatures == {Baseline(problem.space)}
    ensures OnRecord(trials, signatures, 0) && signatures == Tested(trials) && Lineage(trials, dims)
  {
  }

  lemma FirstNode(trials: seq<Trial>, node: Node)
    requires |trials| == 1 && trials[0].outcome.Ok? && node == Node(trials[0], TrialRank(trials[0]))
    ensures IsNode(node, trials)
  {
  }

  /** A grid of one point is tested by testing the starting setup. */
  lemma SinglePoint(problem: Problem, dims: seq<Dimension>, trials: seq<Trial>)
    requires ValidProblem(problem) && Consistent(problem, trials) && AreDimensions(dims, problem.space)
    ensures Size(dims) == 1 ==> Complete(problem, trials)
  {
    if Size(dims) == 1 {
      var signatures := {Baseline(problem.space)};
      var known := BaselineNumber(problem.space, dims);
      NoPoints(problem.space, dims, signatures);
      forall s | Admissible(s, problem.space) ensures trials[0].candidate.settings == s {
        EveryPointSeen(problem.space, dims, s, 0, known, signatures);
      }
    }
  }

  /** A budget of one leaves nothing to explore. */
  lemma SingleTrial(problem: Problem, dims: seq<Dimension>, signatures: set<Settings>, beamWidth: nat)
    requires ValidProblem(problem) && AreDimensions(dims, problem.space) && beamWidth >= 1
    ensures problem.maxCandidates == 1 ==>
              GlobalLimit(1, beamWidth) == 0 && Explored(problem, dims, 1, GlobalLimit(1, beamWidth), signatures)
  {
    hide AreDimensions, AntennaSettings.Valid, ExplorationTried;
  }

  lemma ReportIsTrue(problem: Problem, report: Report, dims: seq<Dimension>, b: nat)
    requires ValidProblem(problem) && Consistent(problem, report.trials) && AreDimensions(dims, problem.space)
    requires report.baseline == report.trials[0] && IsBest(report.trials, b) && report.best == report.trials[b]
    requires report.bestRequest == Updated(problem.space.antennas, report.best.candidate.settings)
    requires report.bestResult == problem.simulate(report.bestRequest)
    requires report.alternatives == Alternatives(report.trials, report.best)
    requires report.searchSpaceSize == Size(dims) && report.plannedTotal == Min(problem.maxCandidates, report.searchSpaceSize)
    requires 1 <= report.globalTested <= |report.trials| <= report.plannedTotal
    requires report.exhaustive == (report.searchSpaceSize <= problem.maxCandidates)
    requires report.exhaustive ==> Complete(problem, report.trials) && report.globalTested == |report.trials|
    requires ExplorationIsSound(problem, report, dims) && RefinementIsSound(problem, report, dims)
    requires StopReasonIsRight(problem, report)
    ensures IsReport(problem, report)
  {
    hide ExplorationIsSound, RefinementIsSound, StopReasonIsRight, Complete, Consistent, IsBest, Alternatives;
  }
}
