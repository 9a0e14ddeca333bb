/**
  How far the space-filling exploration reaches: when the attempt budget covers one full period of
  the samples, exploration that comes up short has left no admissible setup unseen.
  Source: backend/services/optimization_service.py
*/
module GlobalExploration {
  import opened Arithmetic
  import opened AntennaSettings
  import opened SearchGrid
  import opened Candidates
  import opened CandidateGenerators
  import opened JointSampling
  import Halton
  import Primes

  function Sizes(dims: seq<Dimension>): (sizes: seq<nat>)
    ensures |sizes| == |dims|
  {
    seq(|dims|, i requires 0 <= i < |dims| => |dims[i].values|)
  }

  ghost function Places(dims: seq<Dimension>, values: seq<int>): (choice: seq<nat>)
    requires IsChoice(dims, values)
    ensures |choice| == |dims|
    ensures forall i :: 0 <= i < |dims| ==> choice[i] < |dims[i].values| && dims[i].values[choice[i]] == values[i]
  {
    seq(|dims|, i requires 0 <= i < |dims| => Position(dims[i].values, values[i]))
  }

  lemma FirstPrimesAreDistinct(primes: seq<nat>)
    requires Primes.FirstPrimesOf(primes)
    ensures DistinctPrimes(primes)
  {
  }

  /** Every choice of one value for each dimension is a sample of any full period. */
  lemma EveryChoiceIsSampled(dims: seq<Dimension>, primes: seq<nat>, ks: seq<nat>, values: seq<int>, start: nat) returns (index: nat)
    requires NonEmpty(dims) && AreBases(primes, dims) && Primes.FirstPrimesOf(primes)
    requires FineEnough(primes, ks, Sizes(dims)) && IsChoice(dims, values)
    ensures start <= index < start + Boxes(primes, ks)
    ensures Sample(dims, primes, index) == values
  {
    hide Boxes, Halton.RadicalInverse, Halton.ValueIndex, Power;
    FirstPrimesAreDistinct(primes);
    var choice := Places(dims, values);
    index := EveryCombinationIsSampled(start, primes, ks, Sizes(dims), choice);
    forall i | 0 <= i < |dims| ensures Sample(dims, primes, index)[i] == values[i] {
      assert Halton.ValueIndex(Halton.RadicalInverse(index, primes[i]), Sizes(dims)[i]) == choice[i];
    }
  }

  /**
    Exploration that yields fewer candidates than asked for has seen every admissible setup, provided
    the attempt budget holds a full period of cells fine enough for all dimensions.
  */
  lemma ShortExplorationIsComplete(space: SearchSpace, dims: seq<Dimension>, primes: seq<nat>, ks: seq<nat>, attempts: nat,
                                   signatures: set<Settings>, s: Settings)
    requires Valid(space) && AreDimensions(dims, space) && Admissible(s, space)
    requires NonEmpty(dims) && AreBases(primes, dims) && Primes.FirstPrimesOf(primes)
    requires forall i :: 0 <= i < |dims| ==> dims[i].id in Baseline(space)
    requires FineEnough(primes, ks, Sizes(dims)) && Boxes(primes, ks) <= attempts
    requires SamplesTried(space, dims, primes, attempts + 1, signatures)
    ensures s in signatures
  {
    hide AreDimensions, Valid, Legal, Allowed, Baseline, Sample, FineEnough, Boxes, Primes.FirstPrimesOf, Admissible, GridPoint;
    AdmissibleMeansLegal(s, space);
    LegalIsGridPoint(space, dims, s);
    var index := EveryChoiceIsSampled(dims, primes, ks, ValuesAt(s, dims), 1);
    assert Tried(GridPoint(space, dims, Sample(dims, primes, index)), signatures, space);
  }

  lemma AdmissibleMeansLegal(s: Settings, space: SearchSpace)
    requires Valid(space) && Admissible(s, space)
    ensures Legal(s, space)
  {
  }
}
