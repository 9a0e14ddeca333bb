/**
  What an optimization report guarantees, for every request and every simulator.
  Source: backend/services/optimization_service.py
*/
module OptimizerGuarantees {
  import opened Wrappers
  import opened StableSort
  import opened Kpis
  import opened AntennaSettings
  import opened SearchGrid
  import opened Candidates
  import opened RequestBuilder
  import opened CandidateRanking
  import opened CandidateGenerators
  import opened DiverseBeam
  import opened OptimizationState
  import opened BeamRefinement
  import opened CoverageOptimizer
  import opened JointSampling
  import opened GlobalExploration
  import Primes

  // ---------- Every tested candidate keeps to the request

  /** The setting of one antenna respects its ranges, the chosen fields and the change limits. */
  ghost predicate WithinRequest(a: Antenna, s: Setting, space: SearchSpace) {
    && a.tilt.min <= s.tilt <= a.tilt.max
    && a.txPower.min <= s.txPower <= a.txPower.max
    && 0 <= s.azimuth <= FULL_TURN
    && (!Varies(a.id, Tilt, space) ==> s.tilt == a.tilt.current)
    && (!Varies(a.id, TxPower, space) ==> s.txPower == a.txPower.current)
    && (!Varies(a.id, Azimuth, space) ==> s.azimuth == a.azimuth)
    && WithinLimit(s.tilt, a.tilt.current, space.maxTiltChange, false)
    && WithinLimit(s.txPower, a.txPower.current, space.maxPowerChange, false)
    && WithinLimit(s.azimuth, a.azimuth, space.maxAzimuthChange, true)
  }

  lemma LegalIsWithinRequest(settings: Settings, space: SearchSpace, a: Antenna)
    requires Valid(space) && Legal(settings, space) && a in space.antennas
    ensures WithinRequest(a, settings[a.id], space)
  {
    LegalIsInRange(settings, space, a);
    var s := settings[a.id];
    assert s.Get(Tilt) == s.tilt && s.Get(TxPower) == s.txPower && s.Get(Azimuth) == s.azimuth;
    assert if Varies(a.id, Tilt, space) then LegalValue(a, Tilt, s.tilt, space) else s.tilt == a.tilt.current;
    assert if Varies(a.id, TxPower, space) then LegalValue(a, TxPower, s.txPower, space) else s.txPower == a.txPower.current;
    assert if Varies(a.id, Azimuth, space) then LegalValue(a, Azimuth, s.azimuth, space) else s.azimuth == a.azimuth;
  }

  /** What the request demands of a full configuration, and what the candidate's record must say about it. */
  ghost predicate KeepsTheRules(c: Candidate, space: SearchSpace) {
    var start := Baseline(space);
    && c.settings.Keys == start.Keys
    && (forall a :: a in space.antennas ==> a.id in c.settings && WithinRequest(a, c.settings[a.id], space))
    && (space.maxChangedAntennas.Some? ==> |ChangedAntennas(c.settings, start)| <= space.maxChangedAntennas.value)
    && (space.preventTotalPowerIncrease ==>
          TotalPower(Ids(space.antennas), c.settings, space.milliwatts) <= TotalPower(Ids(space.antennas), start, space.milliwatts))
    && (forall change :: change in c.changes ==> change.id in start)
    && Apply(start, c.changes) == c.settings
  }

  lemma AdmissibleKeepsTheRules(c: Candidate, space: SearchSpace)
    requires Valid(space) && Admissible(c.settings, space) && RecordsChanges(c, space)
    ensures KeepsTheRules(c, space) && Accepts(space.antennas, c.settings)
  {
    hide Legal, Baseline, Apply, ChangesOf, SortedIds, WithinRequest, Accepts, TotalPower, ChangedAntennas, Valid;
    AdmissibleIsLegal(c.settings, space);
    AdmissibleFacts(c.settings, space);
    forall a | a in space.antennas ensures WithinRequest(a, c.settings[a.id], space) {
      LegalIsWithinRequest(c.settings, space, a);
    }
    BuilderRoundTrip(c.settings, space);
    ChangesLoseNothing(space, c.settings);
  }

  /**
    Every tested candidate is within the request, changes no more antennas than the cap and, when
    the request says so, sends no more total power than the starting setup; the request builder
    accepts it, its recorded changes rebuild it, and no other trial has its settings.
  */
  lemma EveryTrialKeepsTheRules(problem: Problem, report: Report, i: nat)
    requires ValidProblem(problem) && IsReport(problem, report) && i < |report.trials|
    ensures KeepsTheRules(report.trials[i].candidate, problem.space)
    ensures Accepts(problem.space.antennas, report.trials[i].candidate.settings)
    ensures forall j :: 0 <= j < |report.trials| && j != i ==>
              report.trials[j].candidate.settings != report.trials[i].candidate.settings
    ensures |report.trials| <= problem.maxCandidates && |report.trials| <= report.searchSpaceSize
  {
    hide ExplorationIsSound, RefinementIsSound, Admissible, RecordsChanges, Judge, IsBest, Alternatives, Complete, KeepsTheRules, Accepts, CostOf, Valid;
    assert IsHonest(problem, report.trials[i], report.trials[0].outcome.value.kpis);
    AdmissibleKeepsTheRules(report.trials[i].candidate, problem.space);
  }

  lemma AdmissibleFacts(settings: Settings, space: SearchSpace)
    requires Valid(space) && Admissible(settings, space)
    ensures forall a :: a in space.antennas ==> a.id in settings && a.id in Baseline(space)
    ensures settings.Keys == Baseline(space).Keys && Allowed(settings, space)
  {
    BaselineLookup(space.antennas);
  }

  // ---------- The recommendation

  lemma TrialLeqTotal()
    ensures TotalPreorder(TrialLeq())
  {
    forall a: Trial, b: Trial, c: Trial
      ensures TrialLeq()(a, b) || TrialLeq()(b, a)
      ensures TrialLeq()(a, b) && TrialLeq()(b, c) ==> TrialLeq()(a, c)
    {
      if a.outcome.Ok? && b.outcome.Ok? {
        if c.outcome.Ok? {
          RankIsTotalOrder(TrialRank(a), TrialRank(b), TrialRank(c));
        } else {
          RankIsTotalOrder(TrialRank(a), TrialRank(b), TrialRank(b));
        }
      }
    }
  }

  /** The successes of a prefix come first among the successes. */
  lemma {:induction false} SuccessesGrow(trials: seq<Trial>, i: nat)
    requires i <= |trials|
    ensures Successes(trials[..i]) <= Successes(trials)
  {
    var n := |trials| - 1;
    if i <= n {
      SuccessesGrow(trials[..n], i);
      assert trials[..n][..i] == trials[..i];
    } else {
      assert trials[..i] == trials;
    }
  }

  /** Where a successful trial stands among the successes: behind those of the trials before it. */
  lemma PlaceOfSuccess(trials: seq<Trial>, i: nat) returns (k: nat)
    requires i < |trials| && trials[i].outcome.Ok?
    ensures k < |Successes(trials)| && Successes(trials)[k] == trials[i]
    ensures forall m :: 0 <= m < k ==> Successes(trials)[m] in trials[..i]
  {
    k := |Successes(trials[..i])|;
    SuccessesGrow(trials, i);
    SuccessesGrow(trials, i + 1);
    assert trials[..i + 1][..i] == trials[..i];
    forall m | 0 <= m < k ensures Successes(trials)[m] in trials[..i] {
      assert Successes(trials)[m] == Successes(trials[..i])[m];
    }
  }

  /** The running best is the first of the stably sorted successful trials. */
  lemma BestIsRankedFirst(trials: seq<Trial>, b: nat)
    requires IsBest(trials, b)
    ensures RankedTrials(trials) != [] && RankedTrials(trials)[0] == trials[b]
  {
    hide TrialRank, SortBy;
    TrialLeqTotal();
    var s := Successes(trials);
    var k := PlaceOfSuccess(trials, b);
    forall j | 0 <= j < |s| ensures TrialLeq()(s[k], s[j]) && (j < k ==> !TrialLeq()(s[j], s[k])) {
      assert s[j] in trials && s[j].outcome.Ok?;
      if j < k {
        var m :| 0 <= m < b && trials[..b][m] == s[j];
        assert trials[m] == s[j];
        RankIsTotalOrder(TrialRank(s[k]), TrialRank(s[j]), TrialRank(s[k]));
      }
    }
    SortStartsWithFirstLeast(s, TrialLeq(), k);
  }

  lemma {:induction false} WithoutFirst(trials: seq<Trial>, id: CandidateId)
    requires trials != [] && trials[0].candidate.id == id
    requires forall i :: 1 <= i < |trials| ==> trials[i].candidate.id != id
    ensures Without(trials, id) == trials[1..]
  {
    var n := |trials| - 1;
    if n == 0 {
      assert trials[..0] == [];
    } else {
      WithoutFirst(trials[..n], id);
      assert trials[..n][1..] + [trials[n]] == trials[1..];
    }
  }

  lemma {:induction false} SuccessesDistinct(trials: seq<Trial>)
    requires AllDifferent(trials)
    ensures AllDifferent(Successes(trials))
  {
    if trials != [] {
      var n := |trials| - 1;
      SuccessesDistinct(trials[..n]);
      forall i | 0 <= i < |Successes(trials[..n])|
        ensures Successes(trials[..n])[i].candidate.id != trials[n].candidate.id
        ensures Successes(trials[..n])[i].candidate.settings != trials[n].candidate.settings
      {
        assert Successes(trials[..n])[i] in trials[..n];
      }
    }
  }

  /** Sorted by rank, the trials still have one place each. */
  lemma OncePerId(sorted: seq<Trial>, s: seq<Trial>, i: nat, j: nat)
    requires multiset(sorted) == multiset(s) && AllDifferent(s) && i < j < |sorted|
    ensures sorted[i].candidate.id != sorted[j].candidate.id
  {
    assert sorted[i] in multiset(sorted) && sorted[j] in multiset(sorted);
    if sorted[i].candidate.id == sorted[j].candidate.id {
      assert sorted[i] in s && sorted[j] in s;
      assert sorted[i] == sorted[j];
      TwiceInMultiset(sorted, i, j);
      OnceInMultiset(s, sorted[i]);
    }
  }

  lemma TwiceInMultiset(s: seq<Trial>, i: nat, j: nat)
    requires i < j < |s| && s[i] == s[j]
    ensures multiset(s)[s[i]] >= 2
  {
    assert s == s[..i] + [s[i]] + s[i + 1..j] + [s[j]] + s[j + 1..];
  }

  lemma {:induction false} OnceInMultiset(s: seq<Trial>, t: Trial)
    requires AllDifferent(s)
    ensures multiset(s)[t] <= 1
  {
    if s != [] {
      var n := |s| - 1;
      assert s == s[..n] + [s[n]];
      OnceInMultiset(s[..n], t);
      if s[n] == t {
        assert t !in s[..n];
      }
    }
  }

  /** The recommendation leads the ranking of all successful trials, and the alternatives are the next three. */
  ghost predicate LeadsTheRanking(report: Report) {
    var ranked := RankedTrials(report.trials);
    && Sorted(ranked, TrialLeq()) && multiset(ranked) == multiset(Successes(report.trials))
    && ranked != [] && report.best == ranked[0]
    && report.alternatives == ranked[1..][..Min(|ranked| - 1, 3)]
  }

  lemma RecommendationAndAlternatives(problem: Problem, report: Report)
    requires ValidProblem(problem) && IsReport(problem, report)
    ensures LeadsTheRanking(report)
  {
    hide ExplorationIsSound, RefinementIsSound, SortBy, TrialRank, IsHonest, Complete, Judge, Valid;
    var ranked, s := RankedTrials(report.trials), Successes(report.trials);
    var b: nat :| IsBest(report.trials, b) && report.best == report.trials[b];
    BestIsRankedFirst(report.trials, b);
    TrialLeqTotal();
    SortIsSorted(s, TrialLeq());
    SuccessesDistinct(report.trials);
    forall i | 1 <= i < |ranked| ensures ranked[i].candidate.id != report.best.candidate.id {
      OncePerId(ranked, s, 0, i);
    }
    WithoutFirst(ranked, report.best.candidate.id);
  }

  /** The best trial and the baseline, as places in the list of trials. */
  lemma BestPlace(problem: Problem, report: Report) returns (b: nat)
    requires ValidProblem(problem) && IsReport(problem, report)
    ensures b < |report.trials| && IsBest(report.trials, b) && report.best == report.trials[b] && report.baseline == report.trials[0]
    ensures Consistent(problem, report.trials)
    ensures report.best.outcome.Ok? && report.baseline.outcome.Ok?
    ensures report.baseline.candidate.id == BaselineId && report.baseline.candidate.settings == Baseline(problem.space)
    ensures RankLeq(TrialRank(report.best), TrialRank(report.baseline))
  {
    hide ExplorationIsSound, RefinementIsSound, TrialRank, IsHonest, Complete, Judge, Valid, Alternatives;
    b :| IsBest(report.trials, b) && report.best == report.trials[b];
  }

  lemma OutcomeOf(problem: Problem, report: Report, i: nat)
    requires ValidProblem(problem) && IsReport(problem, report) && i < |report.trials|
    ensures report.baseline.outcome.Ok? && report.baseline.outcome.value.kpis.Keys == METRICS
    ensures report.trials[i].outcome == Judge(problem, report.trials[i].candidate.settings, Some(report.baseline.outcome.value.kpis))
    ensures report.trials[i].outcome.Ok? ==> report.trials[i].cost == CostOf(report.trials[i].candidate.changes)
    ensures RecordsChanges(report.trials[i].candidate, problem.space)
  {
    hide ExplorationIsSound, RefinementIsSound, Judge, Complete, Valid, Alternatives, CostOf, RecordsChanges, Admissible, IsBest;
    assert IsHonest(problem, report.trials[i], report.trials[0].outcome.value.kpis);
  }

  lemma JudgedParts(problem: Problem, settings: Settings, kpis: KpiRecord)
    requires kpis.Keys == METRICS && Judge(problem, settings, Some(kpis)).Ok?
    ensures var e := Judge(problem, settings, Some(kpis)).value; e.passed <==> e.objectivesPassed && e.guardrailsPassed
  {
  }

  /**
    The recommendation satisfies every guardrail exactly when all guardrail KPIs of the starting
    setup are defined.
  */
  lemma RecommendationKeepsGuardrails(problem: Problem, report: Report)
    requires ValidProblem(problem) && IsReport(problem, report)
    ensures report.best.outcome.Ok? && report.baseline.outcome.Ok? && report.baseline.outcome.value.kpis.Keys == METRICS
    ensures report.best.outcome.value.guardrailsPassed
       <==> GuardrailKpisDefined(report.baseline.outcome.value.kpis, problem.goals.guardrails)
  {
    hide Evaluate, IsReport, GuardrailKpisDefined, Updated;
    var b := BestPlace(problem, report);
    OutcomeOf(problem, report, 0);
    OutcomeOf(problem, report, b);
    var kpis := report.baseline.outcome.value.kpis;
    SelfJudged(problem, report.baseline.candidate.settings, kpis);
    if report.best.outcome.value.guardrailsPassed {
      UndefinedBaselineFailsAll(problem.simulate(Updated(problem.space.antennas, report.best.candidate.settings)), problem.goals, kpis);
    }
  }

  lemma SelfJudged(problem: Problem, settings: Settings, kpis: KpiRecord)
    requires ValidGoals(problem.goals) && kpis.Keys == METRICS && Judge(problem, settings, Some(kpis)).Ok?
    requires Judge(problem, settings, Some(kpis)).value.kpis == kpis
    ensures Judge(problem, settings, Some(kpis)).value.guardrailsPassed <==> GuardrailKpisDefined(kpis, problem.goals.guardrails)
  {
    hide GuardrailResults, GuardrailsPassed, GuardrailKpisDefined, EvaluateObjectives, ExtractKpis, Updated;
    SelfComparison(kpis, problem.goals.guardrails);
  }

  /** A one-cell grid without an RSRP reading, for whatever antennas. */
  const DARK_GRID := Grid([Cell(None, None, None, None, true)], None, None)

  function DarkProblem(space: SearchSpace): Problem {
    Problem(space, Goals([Aggregate(CoveredArea, AtLeast, 0.0)], [Guardrail(RsrpP10, 0.0)]), 1, _ => Some(DARK_GRID))
  }

  /** The condition can fail: on a grid without readings no recommendation satisfies a guardrail on RSRP. */
  lemma GuardrailsCanFail(space: SearchSpace, report: Report)
    requires Valid(space)
    ensures ValidProblem(DarkProblem(space)) && Judge(DarkProblem(space), Baseline(space), None).Ok?
    ensures IsReport(DarkProblem(space), report) ==> report.best.outcome.Ok? && !report.best.outcome.value.guardrailsPassed
  {
    hide IsReport, Valid, Baseline, Evaluate, GuardrailKpisDefined, Judge;
    var problem := DarkProblem(space);
    DarkGridIsJudged(space, Baseline(space), None);
    if IsReport(problem, report) {
      RecommendationKeepsGuardrails(problem, report);
      BaselineIsFirst(problem, report);
      OutcomeOf(problem, report, 0);
      DarkKpis(space, report.trials[0].candidate.settings, report.baseline.outcome.value.kpis);
    }
  }

  lemma DarkGridIsJudged(space: SearchSpace, settings: Settings, kpis: Option<KpiRecord>)
    requires kpis.Some? ==> kpis.value.Keys == METRICS
    ensures Judge(DarkProblem(space), settings, kpis).Ok?
  {
    hide Evaluate;
    EvaluationSucceedsIff(Some(DARK_GRID), DarkProblem(space).goals, kpis);
  }

  lemma BaselineIsFirst(problem: Problem, report: Report)
    requires ValidProblem(problem) && IsReport(problem, report)
    ensures |report.trials| > 0 && report.baseline == report.trials[0]
  {
    hide ExplorationIsSound, RefinementIsSound, Complete, IsHonest, Alternatives;
  }

  lemma DarkKpis(space: SearchSpace, settings: Settings, kpis: KpiRecord)
    requires kpis.Keys == METRICS && Judge(DarkProblem(space), settings, Some(kpis)).Ok?
    requires Judge(DarkProblem(space), settings, Some(kpis)).value.kpis == kpis
    ensures !GuardrailKpisDefined(kpis, DarkProblem(space).goals.guardrails)
  {
    hide KpiOf, EvaluateObjectives, GuardrailResults, MissingPercentile;
    DarkMisses();
    MissingExactly(DARK_GRID, RsrpP10);
    var g := Guardrail(RsrpP10, 0.0);
    assert DarkProblem(space).goals.guardrails == [g] && g in [g];
    assert kpis[RsrpP10] == KpiOf(DARK_GRID, RsrpP10) by {
      assert RsrpP10 in METRICS;
    }
  }

  lemma DarkMisses()
    ensures MissingPercentile(DARK_GRID.cells, RsrpP10)
  {
    var readings := Readings(DARK_GRID.cells, Rsrp);
    assert |readings| == 1 && readings[0] == MeasurementValue(DARK_GRID.cells[0], Rsrp) == None;
    CountBounds(readings, (r: Option<real>) => r.None?, 1);
    RankRange(10.0, 1);
  }

  /** The targets are met by the recommendation as soon as any tested trial meets them. */
  lemma PassesIfAnyTrialPasses(problem: Problem, report: Report)
    requires ValidProblem(problem) && IsReport(problem, report)
    ensures (exists i :: 0 <= i < |report.trials| && report.trials[i].outcome.Ok? && report.trials[i].outcome.value.passed)
       <==> report.best.outcome.Ok? && report.best.outcome.value.passed
    ensures report.stopReason == TargetsMet
       <==> exists i :: 0 <= i < |report.trials| && report.trials[i].outcome.Ok? && report.trials[i].outcome.value.passed
  {
    hide ExplorationIsSound, RefinementIsSound, Judge, Consistent;
    var b := BestPlace(problem, report);
    OutcomeOf(problem, report, b);
    JudgedParts(problem, report.trials[b].candidate.settings, report.baseline.outcome.value.kpis);
    if i :| 0 <= i < |report.trials| && report.trials[i].outcome.Ok? && report.trials[i].outcome.value.passed {
      OutcomeOf(problem, report, i);
      JudgedParts(problem, report.trials[i].candidate.settings, report.baseline.outcome.value.kpis);
      assert RankLeq(TrialRank(report.best), TrialRank(report.trials[i]));
    }
  }

  /** Changes are recommended only for a strictly better goal fit. */
  lemma ChangesOnlyForBetterFit(problem: Problem, report: Report)
    requires ValidProblem(problem) && IsReport(problem, report)
    ensures report.best.outcome.Ok? && report.baseline.outcome.Ok?
    ensures report.best != report.baseline ==> RefinementLess(TrialRank(report.best), TrialRank(report.baseline))
  {
    hide Evaluate, IsReport, CostOf, ChangesOf, Judge;
    var b := BestPlace(problem, report);
    OutcomeOf(problem, report, 0);
    OutcomeOf(problem, report, b);
    if b != 0 {
      CostCountsChangedAntennas(problem.space, report.baseline.candidate.settings);
      CostCountsChangedAntennas(problem.space, report.best.candidate.settings);
      assert report.trials[0].candidate.settings != report.trials[b].candidate.settings;
      BetterThanNoChange(TrialRank(report.best), TrialRank(report.baseline));
    }
  }

  /** Once the targets are met, no trial that also meets them changes fewer antennas, or as many by less. */
  lemma CheapestPassingSetup(problem: Problem, report: Report, i: nat)
    requires ValidProblem(problem) && IsReport(problem, report) && i < |report.trials|
    requires report.trials[i].outcome.Ok? && report.trials[i].outcome.value.passed
    ensures report.best.outcome.Ok? && report.best.outcome.value.passed
    ensures var c, d := report.best.cost, report.trials[i].cost;
            c.changedAntennas < d.changedAntennas || (c.changedAntennas == d.changedAntennas && c.magnitude <= d.magnitude)
  {
    hide IsReport, Evaluate, Consistent, OptimizationRank, RankLess, Updated;
    var b := BestPlace(problem, report);
    OutcomeOf(problem, report, b);
    OutcomeOf(problem, report, i);
    PassesIfAnyTrialPasses(problem, report);
    var kpis := Some(report.baseline.outcome.value.kpis);
    PassingCandidatesOrderedByCost(
      problem.simulate(Updated(problem.space.antennas, report.best.candidate.settings)),
      problem.simulate(Updated(problem.space.antennas, report.trials[i].candidate.settings)),
      problem.goals, kpis, report.best.cost, report.trials[i].cost);
  }

  // ---------- Complete searches

  /**
    Exhaustive search is complete. So is a large search whose exploration came up short, provided its
    attempts covered a full period of cells fine enough for all dimensions.
  */
  lemma CompleteSearches(problem: Problem, report: Report, dims: seq<Dimension>, primes: seq<nat>, ks: seq<nat>)
    requires ValidProblem(problem) && IsReport(problem, report) && AreDimensions(dims, problem.space)
    requires Primes.FirstPrimesOf(primes) && |primes| == |dims| && FineEnough(primes, ks, Sizes(dims))
    requires var limit := GlobalLimit(problem.maxCandidates, BeamWidth(problem.maxCandidates));
             report.exhaustive || (report.globalTested <= limit && Boxes(primes, ks) <= MaxAttempts(limit))
    ensures Complete(problem, report.trials)
  {
    hide Admissible, Valid, AreDimensions, Boxes, FineEnough, MaxAttempts, Alternatives, Consistent, RefinementIsSound, BeamWidth, GlobalLimit, Primes.FirstPrimesOf;
    hide AnchorsTried, SamplesTried, Size, Sizes, AreBases;
    if !report.exhaustive {
      DimensionFacts(problem.space, dims);
      var limit := GlobalLimit(problem.maxCandidates, BeamWidth(problem.maxCandidates));
      var bases := BasesOfExploration(problem, report, dims);
      SameBases(bases, primes, dims);
      forall s | Admissible(s, problem.space) ensures exists i :: 0 <= i < |report.trials| && report.trials[i].candidate.settings == s {
        ShortExplorationIsComplete(problem.space, dims, primes, ks, MaxAttempts(limit), Tested(report.trials), s);
        PlaceOfSettings(report.trials, s);
      }
    }
  }

  lemma BasesOfExploration(problem: Problem, report: Report, dims: seq<Dimension>) returns (bases: seq<nat>)
    requires ValidProblem(problem) && IsReport(problem, report) && AreDimensions(dims, problem.space)
    requires !report.exhaustive && report.globalTested <= GlobalLimit(problem.maxCandidates, BeamWidth(problem.maxCandidates))
    ensures ExplorationTried(problem.space, dims, bases, GlobalLimit(problem.maxCandidates, BeamWidth(problem.maxCandidates)), Tested(report.trials))
  {
    hide AntennaSettings.Valid, AreDimensions, ExplorationTried, BeamWidth, GlobalLimit, Size, Alternatives, Consistent, RefinementIsSound;
    var own :| AreDimensions(own, problem.space) && ExplorationIsSound(problem, report, own);
    DimensionsAreUnique(problem.space, dims, own);
    var limit := GlobalLimit(problem.maxCandidates, BeamWidth(problem.maxCandidates));
    assert ExplorationIsSound(problem, report, dims);
    assert GlobalLimit(problem.maxCandidates, report.beamWidth) == limit;
    assert Explored(problem, dims, report.globalTested, GlobalLimit(problem.maxCandidates, report.beamWidth), Tested(report.trials));
    bases :| ExplorationTried(problem.space, dims, bases, limit, Tested(report.trials));
  }

  lemma SameBases(bases: seq<nat>, primes: seq<nat>, dims: seq<Dimension>)
    requires AreBases(bases, dims) && Primes.FirstPrimesOf(bases) && Primes.FirstPrimesOf(primes) && |primes| == |dims|
    ensures bases == primes
  {
    Primes.FirstPrimesAreUnique(bases, primes);
  }

  lemma PlaceOfSettings(trials: seq<Trial>, s: Settings)
    requires s in Tested(trials)
    ensures exists i :: 0 <= i < |trials| && trials[i].candidate.settings == s
  {
    var t :| t in trials && t.candidate.settings == s;
    var i :| 0 <= i < |trials| && trials[i] == t;
  }

  /** The rank that settings deserve, tested or not. */
  ghost predicate DeservesRank(problem: Problem, settings: Settings, kpis: KpiRecord, rank: Rank)
    requires kpis.Keys == METRICS
  {
    && settings.Keys == Baseline(problem.space).Keys
    && (forall i :: 0 <= i < |SortedIds(problem.space)| ==>
          SortedIds(problem.space)[i] in settings && SortedIds(problem.space)[i] in Baseline(problem.space))
    && Judge(problem, settings, Some(kpis)).Ok?
    && rank == OptimizationRank(Judge(problem, settings, Some(kpis)).value,
                                CostOf(ChangesOf(SortedIds(problem.space), settings, Baseline(problem.space))))
  }

  ghost predicate TestedOnce(trials: seq<Trial>, s: Settings) {
    exists i :: 0 <= i < |trials| && trials[i].candidate.settings == s
                && forall j :: 0 <= j < |trials| && trials[j].candidate.settings == s ==> j == i
  }

  lemma OncePerSettings(trials: seq<Trial>, s: Settings)
    requires AllDifferent(trials) && exists i :: 0 <= i < |trials| && trials[i].candidate.settings == s
    ensures TestedOnce(trials, s)
  {
  }

  /**
    When the whole grid fits the budget, or the search is complete for another reason, every
    admissible setup is tested exactly once and none deserves a better rank than the recommendation.
  */
  lemma CompleteSearchIsOptimal(problem: Problem, report: Report, s: Settings, rank: Rank)
    requires ValidProblem(problem) && IsReport(problem, report) && Admissible(s, problem.space)
    requires report.exhaustive || Complete(problem, report.trials)
    ensures TestedOnce(report.trials, s)
    ensures report.best.outcome.Ok? && report.baseline.outcome.Ok? && report.baseline.outcome.value.kpis.Keys == METRICS
    ensures DeservesRank(problem, s, report.baseline.outcome.value.kpis, rank) ==> RankLeq(TrialRank(report.best), rank)
    ensures DeservesRank(problem, report.best.candidate.settings, report.baseline.outcome.value.kpis, TrialRank(report.best))
  {
    hide IsReport, Consistent, DeservesRank, Admissible, RankLess, TrialRank;
    SearchIsComplete(problem, report);
    var b := BestPlace(problem, report);
    TrialsDiffer(problem, report);
    OncePerSettings(report.trials, s);
    RankOfTrial(problem, report, b, TrialRank(report.best));
    var i :| 0 <= i < |report.trials| && report.trials[i].candidate.settings == s;
    RankOfTrial(problem, report, i, rank);
  }

  lemma SearchIsComplete(problem: Problem, report: Report)
    requires ValidProblem(problem) && IsReport(problem, report) && (report.exhaustive || Complete(problem, report.trials))
    ensures Complete(problem, report.trials)
  {
    hide ExplorationIsSound, RefinementIsSound, Complete, Consistent;
  }

  lemma TrialsDiffer(problem: Problem, report: Report)
    requires ValidProblem(problem) && IsReport(problem, report)
    ensures AllDifferent(report.trials)
  {
    hide ExplorationIsSound, RefinementIsSound, Complete, IsHonest, AllDifferent;
  }

  /** A trial has the rank that its settings deserve. */
  lemma RankOfTrial(problem: Problem, report: Report, i: nat, rank: Rank)
    requires ValidProblem(problem) && IsReport(problem, report) && i < |report.trials|
    ensures report.baseline.outcome.Ok? && report.baseline.outcome.value.kpis.Keys == METRICS
    ensures DeservesRank(problem, report.trials[i].candidate.settings, report.baseline.outcome.value.kpis, rank)
       <==> report.trials[i].outcome.Ok? && rank == TrialRank(report.trials[i])
  {
    hide IsReport, Judge, OptimizationRank, CostOf, ChangesOf, SortedIds, Baseline;
    OutcomeOf(problem, report, i);
    SortedIdsAreAll(problem.space);
  }

  /** So a complete report without success proves that no admissible setup meets the targets. */
  lemma CompleteSearchDecides(problem: Problem, report: Report, s: Settings)
    requires ValidProblem(problem) && IsReport(problem, report) && Admissible(s, problem.space)
    requires report.exhaustive || Complete(problem, report.trials)
    ensures report.baseline.outcome.Ok? && report.baseline.outcome.value.kpis.Keys == METRICS
    ensures var verdict := Judge(problem, s, Some(report.baseline.outcome.value.kpis));
            verdict.Ok? && verdict.value.passed ==> report.stopReason == TargetsMet
  {
    hide ExplorationIsSound, RefinementIsSound, Judge, Admissible, Baseline;
    OutcomeOf(problem, report, 0);
    var i :| 0 <= i < |report.trials| && report.trials[i].candidate.settings == s;
    OutcomeOf(problem, report, i);
    PassesIfAnyTrialPasses(problem, report);
  }

  // ---------- Why the search ended

  /**
    What a report of an exhausted search space guarantees: no trial met the targets although budget was
    left; a grid that fits the budget has been tried completely; of a larger one, all admissible
    neighbours of the frontier to which the rounds of the report had led.
  */
  lemma ExhaustedSearchSpaceMeans(problem: Problem, report: Report, dims: seq<Dimension>) returns (r: Refinement)
    requires ValidProblem(problem) && IsReport(problem, report) && AreDimensions(dims, problem.space)
    requires report.stopReason == SearchSpaceExhausted
    ensures |report.trials| < problem.maxCandidates
    ensures forall i :: 0 <= i < |report.trials| && report.trials[i].outcome.Ok? ==> !report.trials[i].outcome.value.passed
    ensures report.exhaustive ==> Complete(problem, report.trials)
    ensures IsRefinement(problem, report, dims, r)
    ensures !report.exhaustive ==>
              report.roundsCompleted == |r.rounds| + 1
              && UsedUp(r.rounds, r.start, r.last, problem, report.trials, dims, report.beamWidth)
  {
    hide Valid, AreDimensions, Consistent, Complete, ExplorationIsSound, UsedUp, StalledAt, Lineage, Advances, Size, Alternatives, IsHistory, TotalPruned, IsDiverseBeam, NodesOf;
    PassesIfAnyTrialPasses(problem, report);
    r := RefinementOf(problem, report, dims);
  }

  /** Every report has a refinement behind it, whatever list of its dimensions one looks at. */
  lemma RefinementOf(problem: Problem, report: Report, dims: seq<Dimension>) returns (r: Refinement)
    requires ValidProblem(problem) && IsReport(problem, report) && AreDimensions(dims, problem.space)
    ensures IsRefinement(problem, report, dims, r)
  {
    hide Valid, AreDimensions, Consistent, Complete, ExplorationIsSound, Lineage, Advances, Size, Alternatives;
    var own :| AreDimensions(own, problem.space) && RefinementIsSound(problem, report, own);
    assert RefinementIsSound(problem, report, own);
    r :| IsRefinement(problem, report, own, r);
    DimensionsAreUnique(problem.space, dims, own);
  }

  /**
    Every frontier of a report that was cut down to the beam width has at least half of any separation
    that as many nodes of its pool have: the first one against all explored successes, each later one,
    also that at which the run ended, against what improved in the round before.
  */
  lemma FrontiersAreDiverse(problem: Problem, report: Report, dims: seq<Dimension>, r: Refinement)
    requires ValidProblem(problem) && IsReport(problem, report) && IsRefinement(problem, report, dims, r)
    ensures r.start != [] ==> HalfAsSpread(NodesOf(report.trials[..report.globalTested]), r.start, report.beamWidth, dims)
    ensures forall p: nat, q: nat :: q == p + 1 && q < |r.rounds| ==>
              HalfAsSpread(r.rounds[p].improving, r.rounds[q].frontier, report.beamWidth, dims)
    ensures report.roundsCompleted == |r.rounds| + 1 && r.rounds != [] ==>
              HalfAsSpread(r.rounds[|r.rounds| - 1].improving, r.last, report.beamWidth, dims)
  {
    hide Valid, AreDimensions, Consistent, Complete, Lineage, Advances, Alternatives, HalfAsSpread, IsDiverseBeam, NodesOf, TotalPruned, RefinementIsSound, LocallyExhausted, StopReasonIsRight, AreImproving, Explored, ExploredInOrder;
    assert report.beamWidth >= 2;
    if r.start != [] {
      DiverseBeamIsSpread(NodesOf(report.trials[..report.globalTested]), report.beamWidth, dims, r.start);
    }
    forall p: nat, q: nat | q == p + 1 && q < |r.rounds|
      ensures HalfAsSpread(r.rounds[p].improving, r.rounds[q].frontier, report.beamWidth, dims)
    {
      DiverseBeamIsSpread(r.rounds[p].improving, report.beamWidth, dims, r.rounds[q].frontier);
    }
    if report.roundsCompleted == |r.rounds| + 1 && r.rounds != [] {
      DiverseBeamIsSpread(r.rounds[|r.rounds| - 1].improving, report.beamWidth, dims, r.last);
    }
  }
}
