/**
  The state of an optimization run: the request and the simulator, the trials, the running best, and
  the exploration that comes first.
  Source: backend/services/optimization_service.py
*/
module OptimizationState {
  import opened Wrappers
  import opened Kpis
  import opened AntennaSettings
  import opened SearchGrid
  import opened Candidates
  import opened RequestBuilder
  import opened CandidateRanking
  import opened CandidateGenerators

  /** A request together with the simulator, any partial function of the antennas to simulate. */
  datatype Problem = Problem(space: SearchSpace, goals: Goals, maxCandidates: nat, simulate: seq<Antenna> -> Option<Grid>)

  ghost predicate ValidProblem(problem: Problem) {
    Valid(problem.space) && ValidGoals(problem.goals) && problem.maxCandidates >= 1
  }

  /** How settings are judged, given the KPIs of the starting setup. */
  function Judge(problem: Problem, settings: Settings, kpis: Option<KpiRecord>): Result<Evaluation, TrialError>
    requires kpis.Some? ==> kpis.value.Keys == METRICS
  {
    Evaluate(problem.simulate(Updated(problem.space.antennas, settings)), problem.goals, kpis)
  }

  function TrialRank(t: Trial): Rank
    requires t.outcome.Ok?
  {
    OptimizationRank(t.outcome.value, t.cost)
  }

  // ---------- What holds of the trials of every run

  /** The trial tests admissible settings, and its outcome is the one their simulation deserves. */
  ghost predicate IsHonest(problem: Problem, t: Trial, kpis: KpiRecord)
    requires ValidProblem(problem) && kpis.Keys == METRICS
  {
    && Admissible(t.candidate.settings, problem.space)
    && RecordsChanges(t.candidate, problem.space)
    && t.outcome == Judge(problem, t.candidate.settings, Some(kpis))
    && (t.outcome.Ok? ==> t.cost == CostOf(t.candidate.changes))
  }

  ghost predicate StartsWithBaseline(problem: Problem, trials: seq<Trial>) {
    && trials != []
    && trials[0].candidate.id == BaselineId && trials[0].candidate.settings == Baseline(problem.space)
    && trials[0].outcome.Ok? && trials[0].outcome.value.kpis.Keys == METRICS
  }

  ghost predicate AllDifferent(trials: seq<Trial>) {
    forall i, j :: 0 <= i < j < |trials| ==>
      trials[i].candidate.settings != trials[j].candidate.settings && trials[i].candidate.id != trials[j].candidate.id
  }

  ghost predicate Consistent(problem: Problem, trials: seq<Trial>)
    requires ValidProblem(problem)
  {
    && StartsWithBaseline(problem, trials)
    && AllDifferent(trials)
    && forall i :: 0 <= i < |trials| ==> IsHonest(problem, trials[i], trials[0].outcome.value.kpis)
  }

  /** The first of the best-ranked successful trials. */
  ghost predicate IsBest(trials: seq<Trial>, b: nat) {
    && b < |trials| && trials[b].outcome.Ok?
    && forall j :: 0 <= j < |trials| && trials[j].outcome.Ok? ==>
         RankLeq(TrialRank(trials[b]), TrialRank(trials[j])) && (j < b ==> RankLess(TrialRank(trials[b]), TrialRank(trials[j])))
  }

  lemma FirstTrial(problem: Problem, t: Trial)
    requires ValidProblem(problem) && t.candidate.id == BaselineId && t.candidate.settings == Baseline(problem.space)
    requires RecordsChanges(t.candidate, problem.space) && t.outcome.Ok?
    requires t.outcome == Judge(problem, t.candidate.settings, None) && t.cost == CostOf(t.candidate.changes)
    ensures Consistent(problem, [t]) && IsBest([t], 0)
  {
    hide Evaluate, OptimizationRank;
    BaselineIsAdmissible(problem.space);
    OwnBaseline(problem.simulate(Updated(problem.space.antennas, t.candidate.settings)), problem.goals);
    RankIsTotalOrder(TrialRank(t), TrialRank(t), TrialRank(t));
  }

  lemma StartFacts(problem: Problem, trials: seq<Trial>)
    requires ValidProblem(problem)
    ensures trials != [] && Consistent(problem, trials) ==> StartsWithBaseline(problem, trials)
    ensures forall b: nat :: IsBest(trials, b) ==> b < |trials| && trials[b].outcome.Ok?
  {
  }

  ghost predicate IsNew(c: Candidate, trials: seq<Trial>) {
    forall i :: 0 <= i < |trials| ==> trials[i].candidate.settings != c.settings && trials[i].candidate.id != c.id
  }

  lemma NextTrial(problem: Problem, trials: seq<Trial>, t: Trial)
    requires ValidProblem(problem) && Consistent(problem, trials) && IsNew(t.candidate, trials)
    requires IsHonest(problem, t, trials[0].outcome.value.kpis)
    ensures Consistent(problem, trials + [t])
  {
    hide IsHonest;
    forall i | 0 <= i < |trials + [t]| ensures IsHonest(problem, (trials + [t])[i], trials[0].outcome.value.kpis) {
      if i < |trials| {
        assert (trials + [t])[i] == trials[i];
      }
    }
  }

  lemma NextBest(trials: seq<Trial>, b: nat, t: Trial)
    requires IsBest(trials, b)
    ensures t.outcome.Ok? && RankLess(TrialRank(t), TrialRank(trials[b])) ==> IsBest(trials + [t], |trials|)
    ensures !(t.outcome.Ok? && RankLess(TrialRank(t), TrialRank(trials[b]))) ==> IsBest(trials + [t], b)
  {
    hide TrialRank;
    var all := trials + [t];
    forall j | 0 <= j < |trials| && trials[j].outcome.Ok? && t.outcome.Ok?
      ensures RankLess(TrialRank(t), TrialRank(trials[b])) ==> RankLess(TrialRank(t), TrialRank(trials[j]))
      ensures RankLess(TrialRank(t), TrialRank(trials[j])) ==> RankLeq(TrialRank(t), TrialRank(trials[j]))
    {
      RankIsTotalOrder(TrialRank(t), TrialRank(trials[b]), TrialRank(trials[j]));
    }
    if t.outcome.Ok? {
      RankIsTotalOrder(TrialRank(t), TrialRank(t), TrialRank(t));
    }
  }

  lemma JudgeIsEvaluate(problem: Problem, settings: Settings, kpis: Option<KpiRecord>)
    requires kpis.Some? ==> kpis.value.Keys == METRICS
    ensures Judge(problem, settings, kpis) == Evaluate(problem.simulate(Updated(problem.space.antennas, settings)), problem.goals, kpis)
  {
  }

  lemma RankOf(t: Trial)
    requires t.outcome.Ok?
    ensures TrialRank(t) == OptimizationRank(t.outcome.value, t.cost)
  {
  }

  /** What recording one more outcome does to the trials and to the best of them. */
  lemma Recorded(problem: Problem, trials: seq<Trial>, b: nat, t: Trial)
    requires ValidProblem(problem)
    requires trials != [] ==> Consistent(problem, trials) && IsBest(trials, b) && StartsWithBaseline(problem, trials)
    requires trials == [] ==> t.candidate.id == BaselineId && t.candidate.settings == Baseline(problem.space) && t.outcome.Ok?
    requires IsNew(t.candidate, trials) && Admissible(t.candidate.settings, problem.space) && RecordsChanges(t.candidate, problem.space)
    requires t.outcome == Judge(problem, t.candidate.settings, if trials == [] then None else Some(trials[0].outcome.value.kpis))
    requires t.outcome.Ok? ==> t.cost == CostOf(t.candidate.changes)
    ensures Consistent(problem, trials + [t]) && StartsWithBaseline(problem, trials + [t])
    ensures var better := t.outcome.Ok? && (trials == [] || RankLess(TrialRank(t), TrialRank(trials[b])));
            IsBest(trials + [t], if better then |trials| else b)
  {
    hide Admissible, RecordsChanges, Judge, TrialRank, RankLess;
    if trials == [] {
      FirstTrial(problem, t);
      assert trials + [t] == [t];
    } else {
      NextTrial(problem, trials, t);
      NextBest(trials, b, t);
    }
  }

  // ---------- The running state

  datatype OptimizationError = StartingSetupFailed(error: TrialError)

  class OptimizationRun {
    const problem: Problem
    var trials: seq<Trial>
    var baseline: Option<Trial>
    var best: Option<Trial>
    var bestRank: Option<Rank>
    var bestRequest: seq<Antenna>
    var bestResult: Option<Grid>
    ghost var bestIndex: nat

    ghost predicate Valid()
      reads this
    {
      && ValidProblem(problem)
      && (trials == [] ==> baseline.None? && best.None? && bestRank.None?)
      && (trials != [] ==>
            && Consistent(problem, trials) && IsBest(trials, bestIndex)
            && baseline == Some(trials[0]) && best == Some(trials[bestIndex]) && bestRank == Some(TrialRank(trials[bestIndex]))
            && bestRequest == Updated(problem.space.antennas, trials[bestIndex].candidate.settings)
            && bestResult == problem.simulate(bestRequest))
    }

    constructor (problem: Problem)
      requires ValidProblem(problem)
      ensures Valid() && this.problem == problem && trials == []
    {
      this.problem := problem;
      trials, baseline, best, bestRank, bestRequest, bestResult, bestIndex := [], None, None, None, [], None, 0;
    }

    /** `run_candidate`: building the request cannot fail, and only a failing starting setup is an error. */
    method RunCandidate(c: Candidate) returns (r: Result<Option<Node>, OptimizationError>)
      requires Valid() && Admissible(c.settings, problem.space) && RecordsChanges(c, problem.space)
      requires c.id == BaselineId <==> trials == []
      requires trials == [] ==> c.settings == Baseline(problem.space)
      requires IsNew(c, trials)
      modifies this
      ensures Valid()
      ensures r.Err? <==> old(trials) == [] && Judge(problem, c.settings, None).Err?
      ensures r.Err? ==> trials == old(trials)
      ensures r.Ok? ==>
                && |trials| == |old(trials)| + 1 && trials[..|old(trials)|] == old(trials)
                && trials[|old(trials)|].candidate == c
                && r.value == if trials[|old(trials)|].outcome.Ok?
                              then Some(Node(trials[|old(trials)|], TrialRank(trials[|old(trials)|]))) else None
    {
      hide Admissible, RecordsChanges, Evaluate, AntennaSettings.Valid, Updated, IsNew, IsHonest, Consistent, IsBest, RankLess, Judge, TrialRank;
      hide Accepts, BaselineSettings, CostOf, OptimizationRank, Legal, Baseline;
      StartFacts(problem, trials);
      AdmissibleIsLegal(c.settings, problem.space);
      BuilderRoundTrip(c.settings, problem.space);
      var request := BuildCandidateRequest(problem.space.antennas, c.settings);
      var result := problem.simulate(request.value.antennas);
      var kpis := if baseline.Some? then Some(baseline.value.outcome.value.kpis) else None;
      var evaluation := Evaluate(result, problem.goals, kpis);
      JudgeIsEvaluate(problem, c.settings, kpis);
      if evaluation.Err? {
        if c.id == BaselineId {
          return Err(StartingSetupFailed(evaluation.error));
        }
        Keep(Trial(c, evaluation, ChangeCost(0, 0)), request.value.antennas, result);
        return Ok(None);
      }
      var cost := CandidateChangeCost(c.changes);
      var trial := Trial(c, evaluation, cost);
      Keep(trial, request.value.antennas, result);
      RankOf(trial);
      return Ok(Some(Node(trial, OptimizationRank(evaluation.value, cost))));
    }

    /** The bookkeeping of `run_candidate`: the trial, the starting result, and the best if the rank is strictly better. */
    method Keep(trial: Trial, request: seq<Antenna>, result: Option<Grid>)
      requires Valid() && IsNew(trial.candidate, trials)
      requires Admissible(trial.candidate.settings, problem.space) && RecordsChanges(trial.candidate, problem.space)
      requires trials == [] ==> trial.candidate.id == BaselineId && trial.candidate.settings == Baseline(problem.space) && trial.outcome.Ok?
      requires trial.outcome == Judge(problem, trial.candidate.settings, if trials == [] then None else Some(trials[0].outcome.value.kpis))
      requires trial.outcome.Ok? ==> trial.cost == CostOf(trial.candidate.changes)
      requires request == Updated(problem.space.antennas, trial.candidate.settings) && result == problem.simulate(request)
      modifies this
      ensures Valid() && trials == old(trials) + [trial]
    {
      hide Admissible, RecordsChanges, AntennaSettings.Valid, Updated, IsNew, IsHonest, Consistent, IsBest, RankLess, Judge, TrialRank;
      hide CostOf, OptimizationRank, Baseline;
      StartFacts(problem, trials);
      Recorded(problem, trials, bestIndex, trial);
      trials := trials + [trial];
      if trial.outcome.Ok? {
        if baseline.None? {
          baseline := Some(trial);
        }
        var rank := OptimizationRank(trial.outcome.value, trial.cost);
        RankOf(trial);
        if bestRank.None? || RankLess(rank, bestRank.value) {
          best, bestRank, bestRequest, bestResult := Some(trial), Some(rank), request, result;
          bestIndex := |trials| - 1;
        }
      }
    }

    /** The testing loops of both phases: until the candidates or the budget run out. */
    method TestCandidates(candidates: seq<Candidate>, limit: nat) returns (nodes: seq<Node>)
      requires Valid() && trials != [] && |trials| < limit
      requires AreNew(candidates, trials, problem.space)
      modifies this
      ensures Valid() && |old(trials)| <= |trials|
      ensures |trials| == if |old(trials)| + |candidates| <= limit then |old(trials)| + |candidates| else limit
      ensures TestedInOrder(trials, old(trials), candidates, nodes)
    {
      hide Admissible, RecordsChanges, IsBest, Consistent, Updated, TrialRank, AntennaSettings.Valid, AreNew, IsNew, TestedInOrder, StartsWithBaseline, NodesOf;
      ghost var before := trials;
      nodes := [];
      NothingTested(before, candidates);
      for i := 0 to |candidates|
        invariant Valid() && |trials| == |before| + i && |trials| < limit
        invariant TestedInOrder(trials, before, candidates, nodes)
      {
        StillNew(candidates, before, trials, nodes, i, problem.space);
        ghost var sofar, found := trials, nodes;
        var node := RunCandidate(candidates[i]);
        if node.value.Some? {
          nodes := nodes + [node.value.value];
        }
        OneMoreTested(trials, sofar, before, candidates, i, found, nodes);
        if |trials| >= limit {
          break;
        }
      }
    }
  }

  /** The trials so far, followed by trials of the first candidates, with a node for each success among them. */
  ghost predicate TestedInOrder(trials: seq<Trial>, before: seq<Trial>, candidates: seq<Candidate>, nodes: seq<Node>) {
    && |before| <= |trials| <= |before| + |candidates| && trials[..|before|] == before
    && (forall i, j :: |before| <= i < |trials| && j == i - |before| ==> trials[i].candidate == candidates[j])
    && (forall node :: node in nodes ==> IsNode(node, trials) && node.trial.candidate in candidates)
    && nodes == NodesOf(trials[|before|..])
  }

  /** A node for each success, in the order of the trials. */
  function NodesOf(trials: seq<Trial>): (nodes: seq<Node>)
    ensures forall node :: node in nodes <==> IsNode(node, trials)
  {
    if trials == [] then []
    else
      var last := trials[|trials| - 1];
      assert forall t :: t in trials <==> t in trials[..|trials| - 1] || t == last;
      NodesOf(trials[..|trials| - 1]) + if last.outcome.Ok? then [Node(last, TrialRank(last))] else []
  }

  lemma {:induction false} NodesConcat(first: seq<Trial>, second: seq<Trial>)
    ensures NodesOf(first + second) == NodesOf(first) + NodesOf(second)
  {
    hide TrialRank;
    if second == [] {
      assert first + second == first;
    } else {
      NodesConcat(first, second[..|second| - 1]);
      assert (first + second)[..|first + second| - 1] == first + second[..|second| - 1];
    }
  }

  lemma NothingTested(trials: seq<Trial>, candidates: seq<Candidate>)
    ensures TestedInOrder(trials, trials, candidates, [])
  {
    assert NodesOf(trials[|trials|..]) == [];
  }

  lemma OneMoreTested(trials: seq<Trial>, sofar: seq<Trial>, before: seq<Trial>, candidates: seq<Candidate>, i: nat,
                      found: seq<Node>, nodes: seq<Node>)
    requires TestedInOrder(sofar, before, candidates, found) && |sofar| == |before| + i && i < |candidates|
    requires |trials| == |sofar| + 1 && trials[..|sofar|] == sofar && trials[|sofar|].candidate == candidates[i]
    requires nodes == found + if trials[|sofar|].outcome.Ok? then [Node(trials[|sofar|], TrialRank(trials[|sofar|]))] else []
    ensures TestedInOrder(trials, before, candidates, nodes)
  {
    hide TrialRank, NodesOf;
    assert trials == sofar + [trials[|sofar|]];
    OneNode(trials[|sofar|]);
    NodesConcat(sofar[|before|..], [trials[|sofar|]]);
    assert trials[|before|..] == sofar[|before|..] + [trials[|sofar|]];
    forall node | node in nodes ensures IsNode(node, trials) && node.trial.candidate in candidates {
      if node in found {
        assert node.trial in sofar;
      }
    }
  }

  lemma OneNode(t: Trial)
    ensures NodesOf([t]) == if t.outcome.Ok? then [Node(t, TrialRank(t))] else []
  {
    hide TrialRank;
    assert NodesOf([t][..0]) == [];
  }

  lemma AdmissibleIsLegal(settings: Settings, space: SearchSpace)
    requires Valid(space) && Admissible(settings, space)
    ensures Legal(settings, space) && settings.Keys == Baseline(space).Keys
  {
  }

  predicate IsNode(node: Node, trials: seq<Trial>) {
    node.trial in trials && node.trial.outcome.Ok? && node.rank == TrialRank(node.trial)
  }

  /** Candidates ready to be tested: admissible, none tested before, none twice. */
  ghost predicate AreNew(candidates: seq<Candidate>, trials: seq<Trial>, space: SearchSpace)
    requires Valid(space)
  {
    && (forall c :: c in candidates ==>
          c.id != BaselineId && IsNew(c, trials) && Admissible(c.settings, space) && RecordsChanges(c, space))
    && (forall i, j :: 0 <= i < j < |candidates| ==>
          candidates[i].settings != candidates[j].settings && candidates[i].id != candidates[j].id)
  }

  lemma StillNew(candidates: seq<Candidate>, before: seq<Trial>, trials: seq<Trial>, nodes: seq<Node>, i: nat, space: SearchSpace)
    requires Valid(space) && AreNew(candidates, before, space) && i < |candidates|
    requires TestedInOrder(trials, before, candidates, nodes) && |trials| == |before| + i
    ensures var c := candidates[i];
            IsNew(c, trials) && c.id != BaselineId && Admissible(c.settings, space) && RecordsChanges(c, space)
  {
    hide Admissible, RecordsChanges, Valid, TrialRank, IsNode;
    var c := candidates[i];
    assert c in candidates;
    forall n | 0 <= n < |trials| ensures trials[n].candidate.settings != c.settings && trials[n].candidate.id != c.id {
      if n < |before| {
        assert trials[..|before|][n] == before[n];
      } else {
        var k := n - |before|;
        assert trials[n].candidate == candidates[k];
      }
    }
  }

  // ---------- The phases

  ghost function Tested(trials: seq<Trial>): set<Settings> {
    set t | t in trials :: t.candidate.settings
  }

  /** The record holds exactly the tested settings, and beam trials come from rounds so far. */
  ghost predicate OnRecord(trials: seq<Trial>, signatures: set<Settings>, rounds: nat) {
    && signatures == Tested(trials)
    && forall i :: 0 <= i < |trials| && trials[i].candidate.id.Beam? ==> 1 <= trials[i].candidate.id.round <= rounds
  }

  ghost predicate DistinctIds(candidates: seq<Candidate>) {
    forall i, j :: 0 <= i < j < |candidates| ==> candidates[i].id != candidates[j].id
  }

  lemma FreshIsNew(candidates: seq<Candidate>, before: set<Settings>, after: set<Settings>, trials: seq<Trial>, space: SearchSpace)
    requires Valid(space) && AreFresh(candidates, before, after, space) && DistinctIds(candidates)
    requires before == Tested(trials)
    requires forall c, i :: c in candidates && 0 <= i < |trials| ==> trials[i].candidate.id != c.id
    requires forall c :: c in candidates ==> c.id != BaselineId
    ensures AreNew(candidates, trials, space)
  {
    hide Admissible, RecordsChanges, Valid;
  }

  /** Testing all of some fresh candidates keeps record and trials in step. */
  lemma StaysOnRecord(before: seq<Trial>, trials: seq<Trial>, candidates: seq<Candidate>, recorded: set<Settings>, after: set<Settings>,
                      space: SearchSpace, rounds: nat)
    requires Valid(space) && AreFresh(candidates, recorded, after, space) && OnRecord(before, recorded, rounds)
    requires Extends(trials, before, candidates)
    requires forall c :: c in candidates && c.id.Beam? ==> 1 <= c.id.round <= rounds
    ensures OnRecord(trials, after, rounds)
  {
    hide Admissible, RecordsChanges, Valid;
    forall i | 0 <= i < |trials|
      ensures trials[i].candidate.settings in after && (trials[i].candidate.id.Beam? ==> 1 <= trials[i].candidate.id.round <= rounds)
    {
      if i < |before| {
        assert trials[..|before|][i] == before[i];
      } else {
        var j := i - |before|;
        assert trials[i].candidate == candidates[j] && candidates[j] in candidates;
      }
    }
    forall s | s in after ensures s in Tested(trials) {
      if s in recorded {
        var t :| t in before && t.candidate.settings == s;
        var i :| 0 <= i < |before| && before[i] == t;
        assert trials[..|before|][i] == trials[i];
      } else {
        var c :| c in candidates && c.settings == s;
        var j :| 0 <= j < |candidates| && candidates[j] == c;
        assert trials[j + |before|].candidate == candidates[j];
      }
    }
  }

  /** The trials so far, followed by the trials of all the candidates. */
  ghost predicate Extends(trials: seq<Trial>, before: seq<Trial>, candidates: seq<Candidate>) {
    && |trials| == |before| + |candidates| && trials[..|before|] == before
    && forall i, j :: |before| <= i < |trials| && j == i - |before| ==> trials[i].candidate == candidates[j]
  }

  function Min(a: int, b: int): int {
    if a <= b then a else b
  }

  function Max(a: int, b: int): int {
    if a >= b then a else b
  }

  function Square(x: int): int {
    x * x
  }

  lemma SquareReaches(n: nat)
    ensures Square(n) >= n
  {
    if n > 0 {
      assert Square(n) == n + n * (n - 1);
    }
  }

  /** The first number from `k` on whose square reaches `n`. */
  function CeilSqrtFrom(n: nat, k: nat): (r: nat)
    requires k <= n && (k > 0 ==> Square(k - 1) < n)
    ensures k <= r <= n && Square(r) >= n && (r > 0 ==> Square(r - 1) < n)
    decreases n - k
  {
    hide Square;
    SquareReaches(n);
    if Square(k) >= n || k == n then k else CeilSqrtFrom(n, k + 1)
  }

  /** `min(12, max(2, ceil(sqrt(max_candidates))))`. */
  function BeamWidth(maxCandidates: nat): (width: nat)
    ensures 2 <= width <= 12
    ensures width < 12 ==> Square(width) >= maxCandidates
    ensures width > 2 ==> Square(width - 1) < maxCandidates
  {
    Min(12, Max(2, CeilSqrtFrom(maxCandidates, 0)))
  }

  /** All admissible settings have been tested. */
  ghost predicate Complete(problem: Problem, trials: seq<Trial>)
    requires ValidProblem(problem)
  {
    forall s :: Admissible(s, problem.space) ==> exists i :: 0 <= i < |trials| && trials[i].candidate.settings == s
  }

  // ---------- Where beam trials come from

  function LocalRadius(round: nat): (radius: nat)
    ensures round == 0 ==> radius == 1
    ensures round == 1 ==> radius == 2
    ensures round >= 2 ==> radius == 3
  {
    Min(3, round + 1)
  }

  /** A beam trial moves one field of an earlier success to a nearby legal value. */
  ghost predicate DerivesFrom(child: Trial, parent: Trial, dims: seq<Dimension>)
    requires child.candidate.id.Beam?
  {
    && parent.outcome.Ok? && child.candidate.parent == Some(parent.candidate.id)
    && exists m :: IsMutation(m, parent.candidate.settings, dims, LocalRadius(child.candidate.id.round))
                   && m.id in parent.candidate.settings
                   && child.candidate.settings == Mutate(parent.candidate.settings, m)
  }

  ghost predicate Lineage(trials: seq<Trial>, dims: seq<Dimension>) {
    forall i :: 0 <= i < |trials| && trials[i].candidate.id.Beam? ==>
      exists p :: 0 <= p < i && DerivesFrom(trials[i], trials[p], dims)
  }

  predicate IsRound(t: Trial, round: nat) {
    t.candidate.id.Beam? && t.candidate.id.round == round
  }

  /** Some trial of the round fits the goals better than the trial it was derived from. */
  ghost predicate Advances(trials: seq<Trial>, round: nat) {
    exists i, p :: 0 <= i < |trials| && 0 <= p < |trials| && IsRound(trials[i], round)
                   && trials[i].outcome.Ok? && trials[p].outcome.Ok?
                   && trials[i].candidate.parent == Some(trials[p].candidate.id)
                   && RefinementLess(TrialRank(trials[i]), TrialRank(trials[p]))
  }

  ghost predicate NoTrialOf(trials: seq<Trial>, round: nat) {
    forall i :: 0 <= i < |trials| ==> !IsRound(trials[i], round)
  }

  /** The round tested something, and nothing of it was an advance. */
  ghost predicate StalledAt(trials: seq<Trial>, round: nat) {
    (exists i :: 0 <= i < |trials| && IsRound(trials[i], round)) && !Advances(trials, round)
  }

  lemma StillAdvances(before: seq<Trial>, trials: seq<Trial>, round: nat)
    requires |before| <= |trials| && trials[..|before|] == before && Advances(before, round)
    ensures Advances(trials, round)
  {
    hide TrialRank;
    var i, p :| 0 <= i < |before| && 0 <= p < |before| && IsRound(before[i], round)
                && before[i].outcome.Ok? && before[p].outcome.Ok?
                && before[i].candidate.parent == Some(before[p].candidate.id)
                && RefinementLess(TrialRank(before[i]), TrialRank(before[p]));
    assert trials[..|before|][i] == trials[i] && trials[..|before|][p] == trials[p];
  }

  lemma NoBeamYet(trials: seq<Trial>, signatures: set<Settings>, dims: seq<Dimension>)
    requires OnRecord(trials, signatures, 0)
    ensures Lineage(trials, dims) && NoTrialOf(trials, 0)
    ensures forall i :: 0 <= i < |trials| ==> !trials[i].candidate.id.Beam?
  {
  }

  lemma LineageGrows(before: seq<Trial>, trials: seq<Trial>, candidates: seq<Candidate>, frontier: seq<Node>, dims: seq<Dimension>, round: nat)
    requires Lineage(before, dims) && Extends(trials, before, candidates)
    requires AreChildren(candidates, frontier, dims, round, LocalRadius(round))
    requires forall node :: node in frontier ==> IsNode(node, before)
    ensures Lineage(trials, dims)
  {
    hide IsMutation, Mutate, TrialRank, LocalRadius;
    forall i | 0 <= i < |trials| && trials[i].candidate.id.Beam?
      ensures exists p :: 0 <= p < i && DerivesFrom(trials[i], trials[p], dims)
    {
      if i < |before| {
        assert trials[..|before|][i] == trials[i];
        var p :| 0 <= p < i && DerivesFrom(before[i], before[p], dims);
        assert trials[..|before|][p] == trials[p];
      } else {
        var j := i - |before|;
        assert trials[i].candidate == candidates[j];
        var q, m :| 0 <= q < |frontier|
          && IsMutation(m, frontier[q].trial.candidate.settings, dims, LocalRadius(round))
          && m.id in frontier[q].trial.candidate.settings
          && candidates[j].settings == Mutate(frontier[q].trial.candidate.settings, m)
          && candidates[j].parent == Some(frontier[q].trial.candidate.id);
        assert frontier[q] in frontier;
        var p :| 0 <= p < |before| && before[p] == frontier[q].trial;
        assert trials[..|before|][p] == trials[p];
        assert DerivesFrom(trials[i], trials[p], dims);
      }
    }
  }

  /** The state between two phases. */
  ghost predicate Running(run: OptimizationRun, seen: SeenSettings, dims: seq<Dimension>, rounds: nat)
    reads run, seen
  {
    && run.Valid() && run.trials != []
    && AreDimensions(dims, run.problem.space)
    && OnRecord(run.trials, seen.signatures, rounds)
    && Baseline(run.problem.space) in seen.signatures
    && Lineage(run.trials, dims)
  }

  /** How many candidates exploration may add to the starting setup. */
  function GlobalLimit(maxCandidates: nat, beamWidth: nat): (limit: nat)
    requires maxCandidates >= 1 && beamWidth >= 1
    ensures 1 + limit <= maxCandidates
    ensures 1 + limit < maxCandidates ==>
              && 1 + limit >= 4 * beamWidth && 5 * (1 + limit) >= 2 * maxCandidates
              && (1 + limit == 4 * beamWidth || 5 * limit < 2 * maxCandidates)
  {
    Min(maxCandidates - 1, Max(beamWidth * 4, CeilDiv(maxCandidates * 2, 5)) - 1)
  }

  /** Exploration added as many candidates as it may, or tried everything it can think of. */
  ghost predicate Explored(problem: Problem, dims: seq<Dimension>, tested: nat, limit: nat, signatures: set<Settings>)
    requires ValidProblem(problem) && AreDimensions(dims, problem.space)
  {
    tested == 1 + limit || exists primes :: ExplorationTried(problem.space, dims, primes, limit, signatures)
  }

  lemma StaysExplored(problem: Problem, dims: seq<Dimension>, tested: nat, limit: nat, before: set<Settings>, after: set<Settings>)
    requires ValidProblem(problem) && AreDimensions(dims, problem.space)
    requires Explored(problem, dims, tested, limit, before) && before <= after
    ensures Explored(problem, dims, tested, limit, after)
  {
    hide ExplorationTried, AntennaSettings.Valid, AreDimensions;
    if tested != 1 + limit {
      var primes :| ExplorationTried(problem.space, dims, primes, limit, before);
      ExplorationStaysTried(problem.space, dims, primes, limit, before, after);
    }
  }

  /** The settings of the trials after the first, up to trial `n`. */
  ghost function TrialSettings(trials: seq<Trial>, n: nat): seq<Settings>
    requires 1 <= n <= |trials|
  {
    seq(n - 1, k requires 0 <= k < n - 1 => trials[k + 1].candidate.settings)
  }

  /** The explored settings are the first new admissible ones among the anchors and then the samples. */
  ghost predicate ExploredInOrder(problem: Problem, dims: seq<Dimension>, trials: seq<Trial>, n: nat)
    requires ValidProblem(problem) && AreDimensions(dims, problem.space) && 1 <= n <= |trials|
  {
    exists primes, visited ::
      ChosenInOrder(TrialSettings(trials, n), problem.space, dims, primes, visited, {Baseline(problem.space)})
  }

  lemma CandidatesAreTrialSettings(trials: seq<Trial>, before: seq<Trial>, candidates: seq<Candidate>)
    requires |before| == 1 && Extends(trials, before, candidates)
    ensures TrialSettings(trials, |trials|) == SettingsList(candidates)
  {
    forall k | 0 <= k < |candidates| ensures TrialSettings(trials, |trials|)[k] == SettingsList(candidates)[k] {
      var i := k + 1;
      assert trials[i].candidate == candidates[k];
    }
  }

  lemma SameTrialSettings(before: seq<Trial>, trials: seq<Trial>)
    requires 1 <= |before| <= |trials| && trials[..|before|] == before
    ensures TrialSettings(before, |before|) == TrialSettings(trials, |before|)
  {
    forall k | 0 <= k < |before| - 1 ensures TrialSettings(before, |before|)[k] == TrialSettings(trials, |before|)[k] {
      assert trials[..|before|][k + 1] == before[k + 1];
    }
  }

  /** Exhaustive search over a small grid, space-filling exploration of a large one. */
  method Explore(run: OptimizationRun, seen: SeenSettings, dims: seq<Dimension>, plannedTotal: nat, beamWidth: nat)
    returns (nodes: seq<Node>)
    requires Running(run, seen, dims, 0) && |run.trials| == 1 < plannedTotal && beamWidth >= 2
    requires plannedTotal == Min(run.problem.maxCandidates, Size(dims))
    requires seen.signatures == {Baseline(run.problem.space)} == Tested(run.trials)
    modifies run, seen
    ensures Running(run, seen, dims, 0) && 1 <= |run.trials| <= plannedTotal && run.trials[..1] == old(run.trials)
    ensures Size(dims) > run.problem.maxCandidates ==> |run.trials| <= 1 + GlobalLimit(run.problem.maxCandidates, beamWidth)
    ensures nodes == NodesOf(run.trials[1..])
    ensures Size(dims) <= run.problem.maxCandidates ==> Complete(run.problem, run.trials)
    ensures Size(dims) > run.problem.maxCandidates ==>
              Explored(run.problem, dims, |run.trials|, GlobalLimit(run.problem.maxCandidates, beamWidth), seen.signatures)
              && ExploredInOrder(run.problem, dims, run.trials, |run.trials|)
  {
    hide Admissible, RecordsChanges, AreDimensions, AntennaSettings.Valid, Baseline, AreFresh, Complete, Consistent, IsBest, Size;
    hide OnRecord, Lineage, IsNode, NodesOf, AreNew, TrialRank, ExplorationTried, ChosenInOrder, Chosen;
    var space := run.problem.space;
    ghost var before, recorded := run.trials, seen.signatures;
    var candidates: seq<Candidate>;
    ghost var primes, visited;
    if Size(dims) <= run.problem.maxCandidates {
      candidates, visited := ExhaustiveCandidates(space, dims, seen, plannedTotal - |run.trials|);
    } else {
      var globalTotal := Max(beamWidth * 4, CeilDiv(run.problem.maxCandidates * 2, 5));
      var globalLimit := Min(run.problem.maxCandidates - |run.trials|, globalTotal - |run.trials|);
      candidates, primes, visited := GlobalCandidates(space, dims, seen, globalLimit);
    }
    OnlyBaselineYet(run.problem, run.trials, candidates);
    FreshIsNew(candidates, recorded, seen.signatures, run.trials, space);
    nodes := run.TestCandidates(candidates, plannedTotal);
    assert Extends(run.trials, before, candidates);
    CandidatesAreTrialSettings(run.trials, before, candidates);
    StaysOnRecord(before, run.trials, candidates, recorded, seen.signatures, space, 0);
    NoBeamYet(run.trials, seen.signatures, dims);
    StillOnRecord(candidates, recorded, seen.signatures, space);
    if Size(dims) <= run.problem.maxCandidates {
      RecordIsComplete(run.problem, run.trials, seen.signatures);
    }
  }

  lemma StillOnRecord(candidates: seq<Candidate>, before: set<Settings>, after: set<Settings>, space: SearchSpace)
    requires Valid(space) && AreFresh(candidates, before, after, space)
    ensures before <= after
  {
  }

  lemma OnlyBaselineYet(problem: Problem, trials: seq<Trial>, candidates: seq<Candidate>)
    requires ValidProblem(problem) && Consistent(problem, trials) && |trials| == 1
    requires (forall i :: 0 <= i < |candidates| ==> candidates[i].id == GlobalExhaustive(i + 1) && candidates[i].parent == None)
          || NumberedGlobal(candidates)
    ensures DistinctIds(candidates)
    ensures forall c, i :: c in candidates && 0 <= i < |trials| ==> trials[i].candidate.id != c.id
    ensures forall c :: c in candidates ==> c.id != BaselineId && !c.id.Beam?
  {
  }

  lemma RecordIsComplete(problem: Problem, trials: seq<Trial>, signatures: set<Settings>)
    requires ValidProblem(problem) && OnRecord(trials, signatures, 0)
    requires forall s :: Admissible(s, problem.space) ==> s in signatures
    ensures Complete(problem, trials)
  {
    hide Admissible;
    forall s | Admissible(s, problem.space) ensures exists i :: 0 <= i < |trials| && trials[i].candidate.settings == s {
      assert s in signatures;
      var t :| t in trials && t.candidate.settings == s;
      var i :| 0 <= i < |trials| && trials[i] == t;
    }
  }
}
