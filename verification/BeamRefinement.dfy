/**
  Refinement of the diverse beam: one round, and all rounds.
  Source: backend/services/optimization_service.py
*/
module BeamRefinement {
  import opened Wrappers
  import opened StableSort
  import opened AntennaSettings
  import opened SearchGrid
  import opened Candidates
  import opened CandidateRanking
  import opened CandidateGenerators
  import opened DiverseBeam
  import opened OptimizationState

  // ---------- One round

  /** The rank of the frontier node that a candidate was derived from. */
  function ParentRank(frontier: seq<Node>, parent: Option<CandidateId>): Option<Rank> {
    if frontier == [] then None
    else
      var last := frontier[|frontier| - 1];
      if parent == Some(last.trial.candidate.id) then Some(last.rank) else ParentRank(frontier[..|frontier| - 1], parent)
  }

  /** Better in goal fit than its parent; without a parent in the frontier a node is compared with itself. */
  predicate Improves(node: Node, frontier: seq<Node>) {
    var parent := ParentRank(frontier, node.trial.candidate.parent);
    RefinementLess(node.rank, if parent.Some? then parent.value else node.rank)
  }

  function ImprovingNodes(layer: seq<Node>, frontier: seq<Node>): (r: seq<Node>)
    ensures forall node :: node in r <==> node in layer && Improves(node, frontier)
  {
    if layer == [] then []
    else
      var last := layer[|layer| - 1];
      assert forall node :: node in layer <==> node in layer[..|layer| - 1] || node == last;
      ImprovingNodes(layer[..|layer| - 1], frontier) + if Improves(last, frontier) then [last] else []
  }

  ghost predicate BeatsParent(node: Node, frontier: seq<Node>) {
    exists p :: 0 <= p < |frontier| && node.trial.candidate.parent == Some(frontier[p].trial.candidate.id)
                && RefinementLess(node.rank, frontier[p].rank)
  }

  lemma {:induction false} ParentRankFound(frontier: seq<Node>, parent: Option<CandidateId>)
    ensures ParentRank(frontier, parent).Some? ==>
              exists p :: 0 <= p < |frontier| && parent == Some(frontier[p].trial.candidate.id) && ParentRank(frontier, parent).value == frontier[p].rank
  {
    if frontier != [] && parent != Some(frontier[|frontier| - 1].trial.candidate.id) {
      ParentRankFound(frontier[..|frontier| - 1], parent);
    }
  }

  lemma ImprovesIsBeatsParent(node: Node, frontier: seq<Node>)
    requires Improves(node, frontier)
    ensures BeatsParent(node, frontier)
  {
    ParentRankFound(frontier, node.trial.candidate.parent);
  }

  lemma NodeCovered(problem: Problem, trials: seq<Trial>, node: Node, dims: seq<Dimension>)
    requires ValidProblem(problem) && Consistent(problem, trials) && IsNode(node, trials) && AreDimensions(dims, problem.space)
    ensures Legal(node.trial.candidate.settings, problem.space)
    ensures Covers(node.trial.candidate.settings, dims)
  {
    hide RecordsChanges, Judge, Allowed, Legal, AreDimensions, Valid;
    var i :| 0 <= i < |trials| && trials[i] == node.trial;
    assert IsHonest(problem, trials[i], trials[0].outcome.value.kpis);
    LegalIsChoice(problem.space, dims, node.trial.candidate.settings);
    DimensionFacts(problem.space, dims);
  }

  lemma NodesCovered(problem: Problem, trials: seq<Trial>, nodes: seq<Node>, dims: seq<Dimension>)
    requires ValidProblem(problem) && Consistent(problem, trials) && AreDimensions(dims, problem.space)
    requires forall node :: node in nodes ==> IsNode(node, trials)
    ensures AllCovered(nodes, dims) && LegalFrontier(nodes, problem.space)
  {
    hide Consistent, AreDimensions, IsNode, Covers, Legal, Valid;
    forall node | node in nodes ensures Covers(node.trial.candidate.settings, dims) && Legal(node.trial.candidate.settings, problem.space) {
      NodeCovered(problem, trials, node, dims);
    }
  }

  lemma SelectedNodes(nodes: seq<Node>, selected: seq<Node>)
    requires multiset(selected) <= multiset(nodes)
    ensures forall node :: node in selected ==> node in nodes
  {
    forall node | node in selected ensures node in nodes {
      assert node in multiset(selected);
    }
  }

  lemma StillNodes(nodes: seq<Node>, before: seq<Trial>, trials: seq<Trial>)
    requires |before| <= |trials| && trials[..|before|] == before
    requires forall node :: node in nodes ==> IsNode(node, before)
    ensures forall node :: node in nodes ==> IsNode(node, trials)
  {
    hide TrialRank;
    forall node | node in nodes ensures IsNode(node, trials) {
      var i :| 0 <= i < |before| && before[i] == node.trial;
      assert trials[..|before|][i] == trials[i];
    }
  }

  datatype RoundOutcome = NothingLeft | Stalled | Improved

  /** No nearby mutation of a frontier node is both admissible and untested by the generators. */
  ghost predicate LocallyExhausted(frontier: seq<Node>, space: SearchSpace, dims: seq<Dimension>, radius: nat, signatures: set<Settings>)
    requires Valid(space)
  {
    forall p, m :: 0 <= p < |frontier| && IsMutation(m, frontier[p].trial.candidate.settings, dims, radius) ==>
      MutationTried(m, frontier[p].trial.candidate.settings, signatures, space)
  }

  lemma {:induction false} ParentRankDefined(frontier: seq<Node>, parent: Option<CandidateId>, q: nat)
    requires q < |frontier| && parent == Some(frontier[q].trial.candidate.id)
    ensures ParentRank(frontier, parent).Some?
  {
    if q < |frontier| - 1 {
      ParentRankDefined(frontier[..|frontier| - 1], parent, q);
    }
  }

  lemma SameTrial(trials: seq<Trial>, i: nat, t: Trial)
    requires AllDifferent(trials) && i < |trials| && t in trials && trials[i].candidate.id == t.candidate.id
    ensures trials[i] == t
  {
    var j :| 0 <= j < |trials| && trials[j] == t;
  }

  /** A node that fits better than the trial named as its parent improves on the frontier. */
  lemma BetterThanParentImproves(trials: seq<Trial>, frontier: seq<Node>, node: Node, p: nat, q: nat)
    requires AllDifferent(trials) && p < |trials| && trials[p].outcome.Ok? && q < |frontier|
    requires forall n :: n in frontier ==> IsNode(n, trials)
    requires node.trial.candidate.parent == Some(trials[p].candidate.id) == Some(frontier[q].trial.candidate.id)
    requires RefinementLess(node.rank, TrialRank(trials[p]))
    ensures Improves(node, frontier)
  {
    hide TrialRank, RefinementLess;
    var parent := node.trial.candidate.parent;
    ParentRankDefined(frontier, parent, q);
    ParentRankFound(frontier, parent);
    var r :| 0 <= r < |frontier| && parent == Some(frontier[r].trial.candidate.id) && ParentRank(frontier, parent).value == frontier[r].rank;
    assert frontier[r] in frontier;
    SameTrial(trials, p, frontier[r].trial);
  }

  /** If no node of the layer improves, no trial of the round advances. */
  lemma NoAdvance(before: seq<Trial>, trials: seq<Trial>, candidates: seq<Candidate>, frontier: seq<Node>, layer: seq<Node>,
                  dims: seq<Dimension>, round: nat, signatures: set<Settings>)
    requires round >= 1 && Extends(trials, before, candidates) && AllDifferent(trials) && OnRecord(before, signatures, round - 1)
    requires AreChildren(candidates, frontier, dims, round, LocalRadius(round))
    requires forall node :: node in frontier ==> IsNode(node, trials)
    requires layer == NodesOf(trials[|before|..])
    requires forall node :: node in layer ==> !Improves(node, frontier)
    ensures !Advances(trials, round)
  {
    hide TrialRank, RefinementLess, Improves, IsMutation, Mutate, LocalRadius, NodesOf;
    forall k | 0 <= k < |before| ensures trials[k] == before[k] {
      assert trials[..|before|][k] == before[k];
    }
    if i, p :| 0 <= i < |trials| && 0 <= p < |trials| && IsRound(trials[i], round)
               && trials[i].outcome.Ok? && trials[p].outcome.Ok?
               && trials[i].candidate.parent == Some(trials[p].candidate.id)
               && RefinementLess(TrialRank(trials[i]), TrialRank(trials[p])) {
      if i >= |before| {
        var j := i - |before|;
        assert trials[i].candidate == candidates[j];
        assert IsChild(candidates[j], frontier, dims, LocalRadius(round));
        var q :| 0 <= q < |frontier| && candidates[j].parent == Some(frontier[q].trial.candidate.id);
        var node := Node(trials[i], TrialRank(trials[i]));
        assert trials[i] == trials[|before|..][j] && IsNode(node, trials[|before|..]);
        BetterThanParentImproves(trials, frontier, node, p, q);
      }
    }
  }

  lemma ImprovementAdvances(trials: seq<Trial>, frontier: seq<Node>, node: Node, round: nat)
    requires IsNode(node, trials) && IsRound(node.trial, round) && BeatsParent(node, frontier)
    requires forall n :: n in frontier ==> IsNode(n, trials)
    ensures Advances(trials, round)
  {
    hide TrialRank, RefinementLess;
    var q :| 0 <= q < |frontier| && node.trial.candidate.parent == Some(frontier[q].trial.candidate.id)
             && RefinementLess(node.rank, frontier[q].rank);
    assert frontier[q] in frontier;
    var i :| 0 <= i < |trials| && trials[i] == node.trial;
    var p :| 0 <= p < |trials| && trials[p] == frontier[q].trial;
  }

  lemma FirstOfRound(trials: seq<Trial>, before: seq<Trial>, candidates: seq<Candidate>, round: nat)
    requires Extends(trials, before, candidates) && candidates != []
    requires forall c :: c in candidates ==> c.id.Beam? && c.id.round == round
    ensures exists i :: 0 <= i < |trials| && IsRound(trials[i], round)
    ensures forall i :: |before| <= i < |trials| ==> IsRound(trials[i], round)
  {
    forall i | |before| <= i < |trials| ensures IsRound(trials[i], round) {
      var j := i - |before|;
      assert trials[i].candidate == candidates[j] && candidates[j] in candidates;
    }
    assert IsRound(trials[|before|], round);
  }

  lemma ConsistentTrials(problem: Problem, trials: seq<Trial>)
    requires ValidProblem(problem) && Consistent(problem, trials)
    ensures AllDifferent(trials)
  {
  }

  /** Frontier nodes that none of the improving nodes comes from. */
  function PrunedBranches(frontier: seq<Node>, improving: seq<Node>): (n: nat)
    ensures n <= |frontier|
  {
    var parents := set node | node in improving :: node.trial.candidate.parent;
    CountBounds(frontier, (node: Node) => Some(node.trial.candidate.id) !in parents, 0);
    CountIf(frontier, (node: Node) => Some(node.trial.candidate.id) !in parents)
  }

  /** A branch is pruned if none of the improving nodes was derived from it. */
  lemma PrunedHaveNoChild(frontier: seq<Node>, improving: seq<Node>)
    ensures PrunedBranches(frontier, improving)
         == CountIf(frontier, (node: Node) => forall child :: child in improving ==> child.trial.candidate.parent != Some(node.trial.candidate.id))
  {
    var parents := set node | node in improving :: node.trial.candidate.parent;
    CountSame(frontier, (node: Node) => Some(node.trial.candidate.id) !in parents,
              (node: Node) => forall child :: child in improving ==> child.trial.candidate.parent != Some(node.trial.candidate.id));
  }

  /** The trials of one round, in their order. */
  function OfRound(trials: seq<Trial>, round: nat): seq<Trial> {
    if trials == [] then []
    else
      var last := trials[|trials| - 1];
      OfRound(trials[..|trials| - 1], round) + if IsRound(last, round) then [last] else []
  }

  /** The successes of the round that improve on their parent in the frontier, in the order of the trials. */
  ghost predicate AreImproving(improving: seq<Node>, trials: seq<Trial>, frontier: seq<Node>, round: nat) {
    improving == ImprovingNodes(NodesOf(OfRound(trials, round)), frontier)
  }

  /** Nothing of a round among trials of none, and everything among trials of that round only. */
  lemma {:induction false} RoundOfMany(before: seq<Trial>, trials: seq<Trial>, round: nat, later: nat)
    requires |before| <= |trials| && trials[..|before|] == before
    requires forall i :: |before| <= i < |trials| ==> IsRound(trials[i], later)
    ensures round != later ==> OfRound(trials, round) == OfRound(before, round)
    ensures round == later && OfRound(before, round) == [] ==> OfRound(trials, round) == trials[|before|..]
  {
    if |trials| == |before| {
      assert trials == before;
    } else {
      var rest := trials[..|trials| - 1];
      assert rest[..|before|] == before;
      RoundOfMany(before, rest, round, later);
      assert trials[|before|..] == rest[|before|..] + [trials[|trials| - 1]];
    }
  }

  lemma {:induction false} RoundOfNone(trials: seq<Trial>, round: nat)
    requires NoTrialOf(trials, round)
    ensures OfRound(trials, round) == []
  {
    if trials != [] {
      RoundOfNone(trials[..|trials| - 1], round);
    }
  }

  lemma ImprovingOfRound(before: seq<Trial>, trials: seq<Trial>, candidates: seq<Candidate>, frontier: seq<Node>, layer: seq<Node>,
                         round: nat, signatures: set<Settings>)
    requires round >= 1 && OnRecord(before, signatures, round - 1) && TestedInOrder(trials, before, candidates, layer)
    requires forall c :: c in candidates ==> c.id.Beam? && c.id.round == round
    ensures AreImproving(ImprovingNodes(layer, frontier), trials, frontier, round)
  {
    hide Improves, TrialRank, NodesOf, ImprovingNodes, Tested;
    RoundOfNone(before, round);
    forall i | |before| <= i < |trials| ensures IsRound(trials[i], round) {
      var j := i - |before|;
      assert trials[i].candidate == candidates[j] && candidates[j] in candidates;
    }
    RoundOfMany(before, trials, round, round);
  }

  /** One round: expand the frontier, test, keep the diverse best of what improved on its parent. */
  method RefinementRound(run: OptimizationRun, seen: SeenSettings, frontier: seq<Node>, dims: seq<Dimension>, round: nat, beamWidth: nat)
    returns (next: seq<Node>, outcome: RoundOutcome, pruned: nat, ghost improving0: seq<Node>)
    requires round >= 1 && Running(run, seen, dims, round - 1) && |run.trials| < run.problem.maxCandidates && beamWidth >= 2
    requires forall node :: node in frontier ==> IsNode(node, run.trials)
    modifies run, seen
    ensures Running(run, seen, dims, round) && |run.trials| <= run.problem.maxCandidates
    ensures |old(run.trials)| <= |run.trials| && run.trials[..|old(run.trials)|] == old(run.trials)
    ensures forall i :: |old(run.trials)| <= i < |run.trials| ==> IsRound(run.trials[i], round)
    ensures |run.trials| <= |old(run.trials)| + 3 * beamWidth
    ensures |run.trials| < run.problem.maxCandidates && |run.trials| < |old(run.trials)| + 3 * beamWidth ==>
              LocallyExhausted(frontier, run.problem.space, dims, LocalRadius(round), seen.signatures)
    ensures outcome == NothingLeft <==> run.trials == old(run.trials)
    ensures outcome == NothingLeft ==> LocallyExhausted(frontier, run.problem.space, dims, LocalRadius(round), seen.signatures)
    ensures outcome == NothingLeft ==> NoTrialOf(run.trials, round)
    ensures outcome == Stalled ==> StalledAt(run.trials, round)
    ensures outcome == Improved ==> Advances(run.trials, round)
    ensures outcome == Improved <==> next != []
    ensures forall node :: node in next ==> IsNode(node, run.trials) && IsRound(node.trial, round) && BeatsParent(node, frontier)
    ensures |next| <= beamWidth
    ensures AreImproving(improving0, run.trials, frontier, round)
    ensures pruned == if outcome == NothingLeft then 0 else PrunedBranches(frontier, improving0)
    ensures outcome == Improved ==> IsDiverseBeam(improving0, beamWidth, dims, next)
  {
    hide Admissible, RecordsChanges, AreDimensions, AntennaSettings.Valid, Baseline, AreFresh, Consistent, IsBest, IsNode, BeatsParent, Improves, AreChildren, AllCovered, LegalFrontier, AreNew, Spread, SortBy, IsMutation, MutationTried;
    hide NodesOf, ImprovingNodes;
    hide OnRecord, Lineage, Advances, TrialRank, TakenInTurn, VisitedTried, MutationLists, AreTurnLists, AllDifferent, LocalRadius, PrunedBranches, IsDiverseBeam, AreImproving;
    var space, max := run.problem.space, run.problem.maxCandidates;
    ghost var before, recorded := run.trials, seen.signatures;
    next, pruned, improving0 := [], 0, [];
    NodesCovered(run.problem, run.trials, frontier, dims);
    var roundLimit := Min(max - |run.trials|, beamWidth * 3);
    ghost var lists, turns, parents;
    var candidates;
    candidates, lists, turns, parents := BeamCandidates(frontier, space, seen, round, roundLimit, LocalRadius(round), dims);
    StillOnRecord(candidates, recorded, seen.signatures, space);
    BeamIds(candidates, frontier, dims, round, LocalRadius(round), run.trials, recorded);
    if candidates == [] {
      StaysOnRecord(before, run.trials, candidates, recorded, seen.signatures, space, round);
      NoneOfRound(before, recorded, frontier, round);
      return next, NothingLeft, 0, improving0;
    }
    FreshIsNew(candidates, recorded, seen.signatures, run.trials, space);
    var layer := run.TestCandidates(candidates, max);
    assert Extends(run.trials, before, candidates);
    StaysOnRecord(before, run.trials, candidates, recorded, seen.signatures, space, round);
    LineageGrows(before, run.trials, candidates, frontier, dims, round);
    FirstOfRound(run.trials, before, candidates, round);
    StillNodes(frontier, before, run.trials);
    var improving := ImprovingNodes(layer, frontier);
    improving0 := improving;
    ImprovingOfRound(before, run.trials, candidates, frontier, layer, round, recorded);
    pruned := PrunedBranches(frontier, improving);
    if improving == [] {
      ConsistentTrials(run.problem, run.trials);
      NoneImproves(layer, frontier);
      NoAdvance(before, run.trials, candidates, frontier, layer, dims, round, recorded);
      return next, Stalled, pruned, improving0;
    }
    outcome := Improved;
    NodesCovered(run.problem, run.trials, improving, dims);
    ghost var pool, m;
    next, pool, m := SelectDiverseBeam(improving, beamWidth, dims);
    SelectedNodes(improving, next);
    forall node | node in next ensures IsRound(node.trial, round) && BeatsParent(node, frontier) {
      ImprovesIsBeatsParent(node, frontier);
      assert node.trial.candidate in candidates;
    }
    assert next[0] in next;
    ImprovementAdvances(run.trials, frontier, next[0], round);
  }

  lemma NoneOfRound(trials: seq<Trial>, signatures: set<Settings>, frontier: seq<Node>, round: nat)
    requires round >= 1 && OnRecord(trials, signatures, round - 1)
    ensures AreImproving([], trials, frontier, round) && NoTrialOf(trials, round)
  {
    RoundOfNone(trials, round);
  }

  lemma NoneImproves(layer: seq<Node>, frontier: seq<Node>)
    requires ImprovingNodes(layer, frontier) == []
    ensures forall node :: node in layer ==> !Improves(node, frontier)
  {
    forall node | node in layer ensures !Improves(node, frontier) {
      assert node in layer && Improves(node, frontier) ==> node in ImprovingNodes(layer, frontier);
    }
  }

  lemma BeamIds(candidates: seq<Candidate>, frontier: seq<Node>, dims: seq<Dimension>, round: nat, radius: nat,
                trials: seq<Trial>, signatures: set<Settings>)
    requires round >= 1 && AreChildren(candidates, frontier, dims, round, radius) && OnRecord(trials, signatures, round - 1)
    ensures DistinctIds(candidates) && OnRecord(trials, signatures, round) && signatures == Tested(trials)
    ensures forall c :: c in candidates ==> c.id.Beam? && c.id.round == round
    ensures forall c, i :: c in candidates && 0 <= i < |trials| ==> trials[i].candidate.id != c.id
  {
    hide IsChild;
    forall c | c in candidates ensures c.id.Beam? && c.id.round == round {
      var i :| 0 <= i < |candidates| && candidates[i] == c;
    }
  }

  // ---------- All rounds

  lemma RoundsStillAdvance(before: seq<Trial>, trials: seq<Trial>, rounds: nat)
    requires |before| <= |trials| && trials[..|before|] == before
    requires forall round: nat :: 1 <= round <= rounds ==> Advances(before, round)
    ensures forall round: nat :: 1 <= round <= rounds ==> Advances(trials, round)
  {
    hide Advances;
    forall round: nat | 1 <= round <= rounds ensures Advances(trials, round) {
      StillAdvances(before, trials, round);
    }
  }

  /** What a round started from and what of it improved. */
  datatype Round = Round(frontier: seq<Node>, improving: seq<Node>)

  function TotalPruned(history: seq<Round>): nat {
    if history == [] then 0
    else
      var last := history[|history| - 1];
      TotalPruned(history[..|history| - 1]) + PrunedBranches(last.frontier, last.improving)
  }

  /** The rounds follow each other: each frontier is the diverse beam of what improved in the round before. */
  ghost predicate IsHistory(history: seq<Round>, start: seq<Node>, trials: seq<Trial>, dims: seq<Dimension>, beamWidth: nat) {
    && (history != [] ==> history[0].frontier == start)
    && (forall r: nat, round: nat :: r < |history| && round == r + 1 ==>
          AreImproving(history[r].improving, trials, history[r].frontier, round))
    && (forall r: nat, q: nat :: q == r + 1 && q < |history| ==>
          IsDiverseBeam(history[r].improving, beamWidth, dims, history[q].frontier))
  }

  /** The frontier with which the next round starts. */
  ghost predicate ComesNext(history: seq<Round>, start: seq<Node>, frontier: seq<Node>, dims: seq<Dimension>, beamWidth: nat) {
    if history == [] then frontier == start
    else IsDiverseBeam(history[|history| - 1].improving, beamWidth, dims, frontier)
  }

  /** After the rounds of the history came `frontier`, and all its admissible neighbours have been tested. */
  ghost predicate UsedUp(history: seq<Round>, start: seq<Node>, frontier: seq<Node>, problem: Problem, trials: seq<Trial>,
                         dims: seq<Dimension>, beamWidth: nat)
    requires ValidProblem(problem)
  {
    && frontier != [] && ComesNext(history, start, frontier, dims, beamWidth)
    && LocallyExhausted(frontier, problem.space, dims, LocalRadius(|history| + 1), Tested(trials))
  }

  lemma FrontierUsedUp(history: seq<Round>, start: seq<Node>, frontier: seq<Node>, problem: Problem, trials: seq<Trial>,
                       dims: seq<Dimension>, beamWidth: nat, signatures: set<Settings>)
    requires ValidProblem(problem) && frontier != [] && ComesNext(history, start, frontier, dims, beamWidth)
    requires OnRecord(trials, signatures, |history| + 1)
    requires LocallyExhausted(frontier, problem.space, dims, LocalRadius(|history| + 1), signatures)
    ensures UsedUp(history, start, frontier, problem, trials, dims, beamWidth)
  {
    hide LocallyExhausted, LocalRadius;
  }

  /** Trials of later rounds do not touch what an earlier round is remembered for. */
  lemma StillImproving(before: seq<Trial>, trials: seq<Trial>, improving: seq<Node>, frontier: seq<Node>, round: nat, later: nat)
    requires |before| <= |trials| && trials[..|before|] == before && round != later
    requires forall i :: |before| <= i < |trials| ==> IsRound(trials[i], later)
    requires AreImproving(improving, before, frontier, round)
    ensures AreImproving(improving, trials, frontier, round)
  {
    hide Improves, TrialRank, NodesOf, ImprovingNodes;
    RoundOfMany(before, trials, round, later);
  }

  lemma OneMoreRound(history: seq<Round>, start: seq<Node>, before: seq<Trial>, trials: seq<Trial>, frontier: seq<Node>,
                     improving: seq<Node>, dims: seq<Dimension>, beamWidth: nat)
    requires IsHistory(history, start, before, dims, beamWidth) && ComesNext(history, start, frontier, dims, beamWidth)
    requires |before| <= |trials| && trials[..|before|] == before
    requires forall i :: |before| <= i < |trials| ==> IsRound(trials[i], |history| + 1)
    requires AreImproving(improving, trials, frontier, |history| + 1)
    ensures IsHistory(history + [Round(frontier, improving)], start, trials, dims, beamWidth)
    ensures TotalPruned(history + [Round(frontier, improving)]) == TotalPruned(history) + PrunedBranches(frontier, improving)
  {
    hide AreImproving, IsDiverseBeam, PrunedBranches;
    var longer := history + [Round(frontier, improving)];
    assert longer[..|history|] == history;
    forall r: nat, round: nat | r < |longer| && round == r + 1
      ensures AreImproving(longer[r].improving, trials, longer[r].frontier, round)
    {
      if r < |history| {
        assert longer[r] == history[r];
        StillImproving(before, trials, history[r].improving, history[r].frontier, round, |history| + 1);
      }
    }
    forall r: nat, q: nat | q == r + 1 && q < |longer|
      ensures IsDiverseBeam(longer[r].improving, beamWidth, dims, longer[q].frontier)
    {
      assert longer[r] == history[r];
    }
  }

  lemma NoHistory(start: seq<Node>, trials: seq<Trial>, dims: seq<Dimension>, beamWidth: nat)
    ensures IsHistory([], start, trials, dims, beamWidth) && ComesNext([], start, start, dims, beamWidth) && TotalPruned([]) == 0
  {
  }

  lemma ThenComes(history: seq<Round>, start: seq<Node>, next: seq<Node>, dims: seq<Dimension>, beamWidth: nat)
    requires history != []
    ensures IsDiverseBeam(history[|history| - 1].improving, beamWidth, dims, next) ==> ComesNext(history, start, next, dims, beamWidth)
  {
  }

  /** The refinement loop; each round that goes on tests at least one more candidate. */
  method RefineBeam(run: OptimizationRun, seen: SeenSettings, start: seq<Node>, dims: seq<Dimension>, beamWidth: nat)
    returns (rounds: nat, stalled: bool, pruned: nat, ghost history: seq<Round>, ghost last: seq<Node>)
    requires Running(run, seen, dims, 0) && |run.trials| <= run.problem.maxCandidates && beamWidth >= 2
    requires forall node :: node in start ==> IsNode(node, run.trials)
    modifies run, seen
    ensures Running(run, seen, dims, rounds) && |run.trials| <= run.problem.maxCandidates
    ensures |old(run.trials)| <= |run.trials| && run.trials[..|old(run.trials)|] == old(run.trials)
    ensures forall i :: |old(run.trials)| <= i < |run.trials| ==> run.trials[i].candidate.id.Beam?
    ensures forall round: nat :: 1 <= round < rounds ==> Advances(run.trials, round)
    ensures stalled ==> rounds >= 1 && StalledAt(run.trials, rounds)
    ensures !stalled && |run.trials| < run.problem.maxCandidates ==> NoTrialOf(run.trials, rounds)
    ensures IsHistory(history, start, run.trials, dims, beamWidth) && pruned == TotalPruned(history)
    ensures || |history| == rounds
            || (|history| + 1 == rounds && NoTrialOf(run.trials, rounds)
                && UsedUp(history, start, last, run.problem, run.trials, dims, beamWidth))
    ensures start == [] ==> rounds == 0 && !stalled && run.trials == old(run.trials)
    ensures start != [] && |run.trials| < run.problem.maxCandidates ==>
              rounds >= 1 && (stalled || |history| + 1 == rounds)
  {
    hide AreDimensions, AntennaSettings.Valid, Baseline, Consistent, IsBest, IsNode, OnRecord, Lineage, Advances, StalledAt, BeatsParent, LocallyExhausted, UsedUp, LocalRadius, IsRound, ValidProblem;
    hide NoTrialOf, AreImproving, IsDiverseBeam, PrunedBranches, IsHistory, ComesNext, TotalPruned;
    ghost var first := run.trials;
    NoBeamYet(run.trials, seen.signatures, dims);
    assert first[..|first|] == first;
    var frontier := start;
    rounds, stalled, pruned, history, last := 0, false, 0, [], start;
    NoHistory(start, run.trials, dims, beamWidth);
    while frontier != [] && |run.trials| < run.problem.maxCandidates
      invariant Running(run, seen, dims, rounds) && |run.trials| <= run.problem.maxCandidates
      invariant |first| <= |run.trials| && run.trials[..|first|] == first
      invariant forall i :: |first| <= i < |run.trials| ==> run.trials[i].candidate.id.Beam?
      invariant forall node :: node in frontier ==> IsNode(node, run.trials) && (rounds >= 1 ==> IsRound(node.trial, rounds))
      invariant forall round: nat :: 1 <= round <= rounds ==> Advances(run.trials, round)
      invariant frontier == [] ==> start == [] && rounds == 0 && run.trials == first
      invariant start == [] ==> frontier == []
      invariant |history| == rounds && IsHistory(history, start, run.trials, dims, beamWidth)
      invariant ComesNext(history, start, frontier, dims, beamWidth) && pruned == TotalPruned(history)
      decreases run.problem.maxCandidates - |run.trials|
    {
      rounds := rounds + 1;
      ghost var before := run.trials;
      ghost var improving;
      var next, outcome, cut;
      next, outcome, cut, improving := RefinementRound(run, seen, frontier, dims, rounds, beamWidth);
      pruned := pruned + cut;
      RoundsStillAdvance(before, run.trials, rounds - 1);
      StillFirst(first, before, run.trials, rounds);
      if outcome == NothingLeft {
        last := frontier;
        FrontierUsedUp(history, start, frontier, run.problem, run.trials, dims, beamWidth, seen.signatures);
        break;
      }
      OneMoreRound(history, start, before, run.trials, frontier, improving, dims, beamWidth);
      ThenComes(history + [Round(frontier, improving)], start, next, dims, beamWidth);
      history := history + [Round(frontier, improving)];
      if outcome == Stalled {
        stalled := true;
        break;
      }
      frontier := next;
    }
  }

  lemma StillFirst(first: seq<Trial>, before: seq<Trial>, trials: seq<Trial>, round: nat)
    requires |first| <= |before| <= |trials| && before[..|first|] == first && trials[..|before|] == before
    requires forall i :: |first| <= i < |before| ==> before[i].candidate.id.Beam?
    requires forall i :: |before| <= i < |trials| ==> IsRound(trials[i], round)
    ensures trials[..|first|] == first
    ensures forall i :: |first| <= i < |trials| ==> trials[i].candidate.id.Beam?
  {
    assert trials[..|first|] == trials[..|before|][..|first|];
    forall i | |first| <= i < |trials| ensures trials[i].candidate.id.Beam? {
      if i < |before| {
        assert trials[..|before|][i] == trials[i];
      }
    }
  }
}
