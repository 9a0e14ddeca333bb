/**
  Coverage, overlap and RF-distribution KPIs of a coverage grid.
  Source: backend/services/network_coverage_kpis.py
*/
module Kpis {
  import opened Arithmetic
  import opened Wrappers
  import opened StableSort

  /** A grid cell with its numeric fields already parsed; unparsable or infinite ones are None. */
  datatype Cell =
    | Malformed
    | Cell(signal: Option<real>, sinr: Option<real>, throughput: Option<real>,
           overlapCount: Option<real>, markedUncovered: bool)

  datatype Measurement = Rsrp | Sinr | Throughput

  datatype Operator = Less | AtMost | Greater | AtLeast | Equal

  datatype KpiError = BadPercentile | BadOperator | MalformedCell

  function MeasurementValue(cell: Cell, m: Measurement): Option<real> {
    match cell
    case Malformed => if m == Throughput then Some(0.0) else None
    case Cell(signal, sinr, throughput, _, _) =>
      match m
      case Rsrp => signal
      case Sinr => sinr
      case Throughput => if throughput.None? then Some(0.0) else throughput
  }

  function Readings(cells: seq<Cell>, m: Measurement): (r: seq<Option<real>>)
    ensures |r| == |cells|
  {
    seq(|cells|, i requires 0 <= i < |cells| => MeasurementValue(cells[i], m))
  }

  function Percent(part: nat, total: nat): real {
    if total == 0 then 0.0 else part as real / total as real * 100.0
  }

  // ---------- Nearest-rank percentiles

  function Ceil(x: real): int {
    -((-x).Floor)
  }

  /** Present readings, in their order. */
  function Present(readings: seq<Option<real>>): seq<real> {
    if readings == [] then []
    else
      var last := readings[|readings| - 1];
      Present(readings[..|readings| - 1]) + if last.Some? then [last.value] else []
  }

  function RealLeq(): (real, real) -> bool {
    (x, y) => x <= y
  }

  function Rank(p: real, n: nat): int {
    Ceil(p / 100.0 * n as real)
  }

  lemma RankRange(p: real, n: nat)
    requires 0.0 < p <= 100.0 && n > 0
    ensures 1 <= Rank(p, n) <= n
    ensures (Rank(p, n) - 1) as real < p / 100.0 * n as real <= Rank(p, n) as real
  {
    var q := p / 100.0;
    assert 0.0 < q <= 1.0;
    RealMonotone(q, 1.0, n as real);
    assert q * n as real > 0.0;
  }

  function CountMissing(readings: seq<Option<real>>): nat {
    CountIf(readings, (r: Option<real>) => r.None?)
  }

  lemma PresentCount(readings: seq<Option<real>>)
    ensures |Present(readings)| + CountMissing(readings) == |readings|
  {
    if readings != [] {
      PresentCount(readings[..|readings| - 1]);
    }
  }

  /** The nearest-rank percentile over all cells; missing readings fill the lowest ranks. */
  function CalculatePercentile(cells: seq<Cell>, m: Measurement, p: real): Result<Option<real>, KpiError> {
    if !(0.0 < p <= 100.0) then Err(BadPercentile)
    else if cells == [] then Ok(None)
    else
      var readings := Readings(cells, m);
      var missing := CountMissing(readings);
      var rank := Rank(p, |readings|);
      if rank <= missing then Ok(None)
      else
        var sorted := SortBy(Present(readings), RealLeq());
        RankRange(p, |readings|);
        PresentCount(readings);
        RealLeqTotal();
        SortIsSorted(Present(readings), RealLeq());
        Ok(Some(sorted[rank - missing - 1]))
  }

  lemma RealLeqTotal()
    ensures TotalPreorder(RealLeq())
  {
  }

  /** Missing readings order below all numbers. */
  predicate Below(a: Option<real>, b: Option<real>) {
    b.Some? && (a.None? || a.value < b.value)
  }

  function CountBelow(readings: seq<Option<real>>, v: Option<real>): nat {
    CountIf(readings, (r: Option<real>) => Below(r, v))
  }

  function CountUpTo(readings: seq<Option<real>>, v: Option<real>): nat {
    CountIf(readings, (r: Option<real>) => !Below(v, r))
  }

  lemma {:induction false} CountsThroughPresent(readings: seq<Option<real>>, v: real)
    ensures CountBelow(readings, Some(v)) == CountMissing(readings) + CountIf(Present(readings), (x: real) => x < v)
    ensures CountUpTo(readings, Some(v)) == CountMissing(readings) + CountIf(Present(readings), (x: real) => x <= v)
  {
    if readings != [] {
      var rest, last := readings[..|readings| - 1], readings[|readings| - 1];
      CountsThroughPresent(rest, v);
      if last.Some? {
        assert Present(readings)[..|Present(rest)|] == Present(rest);
      } else {
        assert Present(readings) == Present(rest);
      }
    }
  }

  /**
    The percentile is a true order statistic: fewer than `rank` readings lie below it and at least
    `rank` readings do not lie above it, missing ones counted as lowest. It is None exactly when the
    missing readings reach up to the rank.
  */
  lemma PercentileIsOrderStatistic(cells: seq<Cell>, m: Measurement, p: real)
    requires 0.0 < p <= 100.0 && cells != []
    ensures CalculatePercentile(cells, m, p).Ok?
    ensures var v, readings := CalculatePercentile(cells, m, p).value, Readings(cells, m);
            && CountBelow(readings, v) < Rank(p, |cells|) <= CountUpTo(readings, v)
            && (v.None? <==> Rank(p, |cells|) <= CountMissing(readings))
  {
    hide SortBy, Present, CountBelow, CountUpTo, CountMissing, Rank;
    RankRange(p, |cells|);
    CountNoneBelow(Readings(cells, m));
    if CalculatePercentile(cells, m, p).value.Some? {
      SortedPosition(Readings(cells, m), Rank(p, |cells|));
    }
  }

  lemma SortedPosition(readings: seq<Option<real>>, rank: nat)
    requires CountMissing(readings) < rank <= |readings|
    ensures |SortBy(Present(readings), RealLeq())| == |readings| - CountMissing(readings)
    ensures var v := Some(SortBy(Present(readings), RealLeq())[rank - CountMissing(readings) - 1]);
            CountBelow(readings, v) < rank <= CountUpTo(readings, v)
  {
    hide CountBelow, CountUpTo, CountMissing, Present, SortBy;
    var present := Present(readings);
    var sorted := SortBy(present, RealLeq());
    PresentCount(readings);
    RealLeqTotal();
    SortIsSorted(present, RealLeq());
    var k := rank - CountMissing(readings) - 1;
    var v := sorted[k];
    CountsThroughPresent(readings, v);
    SortCount(present, RealLeq(), (x: real) => x < v);
    SortCount(present, RealLeq(), (x: real) => x <= v);
    SortedCounts(sorted, k);
  }

  lemma {:induction false} CountNoneBelow(readings: seq<Option<real>>)
    ensures CountBelow(readings, None) == 0 && CountUpTo(readings, None) == CountMissing(readings)
  {
    if readings != [] {
      CountNoneBelow(readings[..|readings| - 1]);
    }
  }

  lemma SortedCounts(sorted: seq<real>, k: nat)
    requires k < |sorted| && Sorted(sorted, RealLeq())
    ensures CountIf(sorted, (x: real) => x < sorted[k]) <= k
    ensures CountIf(sorted, (x: real) => x <= sorted[k]) >= k + 1
  {
    forall i | 0 <= i < |sorted| ensures i <= k ==> sorted[i] <= sorted[k]
                                 ensures k <= i ==> sorted[k] <= sorted[i]
    {
      assert i < k ==> RealLeq()(sorted[i], sorted[k]);
      assert k < i ==> RealLeq()(sorted[k], sorted[i]);
    }
    CountBounds(sorted, (x: real) => x < sorted[k], k);
    CountBounds(sorted, (x: real) => x <= sorted[k], k + 1);
  }

  lemma {:induction false} CountMonotone(readings: seq<Option<real>>, a: Option<real>, b: Option<real>)
    requires Below(b, a)
    ensures CountUpTo(readings, b) <= CountBelow(readings, a)
  {
    if readings != [] {
      CountMonotone(readings[..|readings| - 1], a, b);
    }
  }

  /** A higher percentile never reads lower. */
  lemma PercentileMonotone(cells: seq<Cell>, m: Measurement, p: real, q: real)
    requires 0.0 < p <= q <= 100.0 && cells != []
    ensures CalculatePercentile(cells, m, p).Ok? && CalculatePercentile(cells, m, q).Ok?
    ensures !Below(CalculatePercentile(cells, m, q).value, CalculatePercentile(cells, m, p).value)
  {
    PercentileIsOrderStatistic(cells, m, p);
    PercentileIsOrderStatistic(cells, m, q);
    RankMonotone(p, q, |cells|);
    var a, b := CalculatePercentile(cells, m, p).value, CalculatePercentile(cells, m, q).value;
    if Below(b, a) {
      CountMonotone(Readings(cells, m), a, b);
      assert false;
    }
  }

  lemma RankMonotone(p: real, q: real, n: nat)
    requires 0.0 < p <= q <= 100.0 && n > 0
    ensures Rank(p, n) <= Rank(q, n)
  {
    RankRange(p, n);
    RankRange(q, n);
    RealMonotone(p / 100.0, q / 100.0, n as real);
  }

  /** Throughput percentiles of a grid with cells are always numbers: a missing throughput reads as zero. */
  lemma ThroughputNeverMissing(cells: seq<Cell>, p: real)
    requires 0.0 < p <= 100.0 && cells != []
    ensures CalculatePercentile(cells, Throughput, p).Ok? && CalculatePercentile(cells, Throughput, p).value.Some?
  {
    PercentileIsOrderStatistic(cells, Throughput, p);
    RankRange(p, |cells|);
    var readings := Readings(cells, Throughput);
    NoneMissing(readings);
  }

  lemma {:induction false} NoneMissing(readings: seq<Option<real>>)
    requires forall i :: 0 <= i < |readings| ==> readings[i].Some?
    ensures CountMissing(readings) == 0
  {
    if readings != [] {
      NoneMissing(readings[..|readings| - 1]);
    }
  }

  // ---------- Threshold areas

  predicate Compare(actual: real, op: Operator, threshold: real) {
    match op
    case Less => actual < threshold
    case AtMost => actual <= threshold
    case Greater => actual > threshold
    case AtLeast => actual >= threshold
    case Equal => actual == threshold
  }

  predicate Passes(reading: Option<real>, op: Operator, threshold: real) {
    reading.Some? && Compare(reading.value, op, threshold)
  }

  function PassingCells(cells: seq<Cell>, m: Measurement, op: Operator, threshold: real): nat {
    CountIf(Readings(cells, m), (r: Option<real>) => Passes(r, op, threshold))
  }

  datatype ThresholdResult = ThresholdResult(passing: nat, total: nat, areaPercent: real)

  function ThresholdArea(cells: seq<Cell>, m: Measurement, op: Operator, threshold: real): Result<ThresholdResult, KpiError> {
    if op == Equal then Err(BadOperator)
    else
      var passing := PassingCells(cells, m, op, threshold);
      Ok(ThresholdResult(passing, |cells|, Percent(passing, |cells|)))
  }

  method CalculateThresholdAreaPercent(cells: seq<Cell>, m: Measurement, op: Operator, threshold: real)
    returns (r: Result<ThresholdResult, KpiError>)
    ensures r == ThresholdArea(cells, m, op, threshold)
  {
    if op == Equal {
      return Err(BadOperator);
    }
    var passing := 0;
    for i := 0 to |cells|
      invariant passing == PassingCells(cells[..i], m, op, threshold)
    {
      assert Readings(cells[..i + 1], m)[..i] == Readings(cells[..i], m);
      var value := MeasurementValue(cells[i], m);
      if value.Some? && Compare(value.value, op, threshold) {
        passing := passing + 1;
      }
    }
    assert cells[..|cells|] == cells;
    return Ok(ThresholdResult(passing, |cells|, Percent(passing, |cells|)));
  }

  lemma {:induction false} Complement(readings: seq<Option<real>>, v: real)
    ensures CountIf(readings, (r: Option<real>) => Passes(r, AtLeast, v)) + CountBelow(readings, Some(v)) == |readings|
  {
    if readings != [] {
      Complement(readings[..|readings| - 1], v);
    }
  }

  /**
    The two KPIs agree: when the p-th percentile is the number `v`, the area where the reading is at
    least `v` is more than 100 - p percent of the grid.
  */
  lemma PercentileBoundsThresholdArea(cells: seq<Cell>, m: Measurement, p: real, v: real)
    requires 0.0 < p <= 100.0 && cells != []
    requires CalculatePercentile(cells, m, p) == Ok(Some(v))
    ensures ThresholdArea(cells, m, AtLeast, v).Ok?
    ensures ThresholdArea(cells, m, AtLeast, v).value.areaPercent > 100.0 - p
  {
    var n := |cells|;
    PercentileIsOrderStatistic(cells, m, p);
    Complement(Readings(cells, m), v);
    RankRange(p, n);
    var passing := PassingCells(cells, m, AtLeast, v);
    assert passing >= n - (Rank(p, n) - 1);
    ShareAbove(passing, n, p);
  }

  lemma ShareAbove(passing: nat, n: nat, p: real)
    requires n > 0 && passing as real > n as real - p / 100.0 * n as real
    ensures Percent(passing, n) > 100.0 - p
  {
    var q, nr, share := p / 100.0, n as real, passing as real / n as real;
    DivideBack(passing as real, nr);
    RealDistribute(1.0, q, nr);
    CancelFactor(1.0 - q, share, nr);
  }

  // ---------- The KPI record

  const OVERLAP_MIN_COUNT := 2.0

  datatype Metric =
    | CoveredArea | UncoveredArea | OverlapArea | AverageOverlap | RsrpP10 | SinrP10 | ThroughputP10

  predicate IsNoCoverage(cell: Cell) {
    match cell
    case Malformed => true
    case Cell(_, sinr, _, overlapCount, marked) =>
      marked || (if overlapCount.Some? then overlapCount.value <= 0.0 else sinr.None?)
  }

  function Sum(values: seq<real>): real {
    if values == [] then 0.0 else Sum(values[..|values| - 1]) + values[|values| - 1]
  }

  /** Positive overlap counts of covered cells, in order. */
  function PositiveCounts(cells: seq<Cell>): seq<real> {
    if cells == [] then []
    else
      var last := cells[|cells| - 1];
      PositiveCounts(cells[..|cells| - 1]) +
      if !IsNoCoverage(last) && last.Cell? && last.overlapCount.Some? && last.overlapCount.value > 0.0
      then [last.overlapCount.value] else []
  }

  /** What a simulation returns: the grid, with the summary figures that stand in for missing overlap data. */
  datatype Grid = Grid(cells: seq<Cell>, summaryOverlap: Option<real>, summaryAverage: Option<real>)

  /** One KPI of a grid of well-formed cells; None when no reading defines it. */
  function KpiOf(grid: Grid, metric: Metric): Option<real> {
    var cells := grid.cells;
    match metric
    case CoveredArea => Some(Percent(CountIf(cells, (c: Cell) => !IsNoCoverage(c)), |cells|))
    case UncoveredArea => Some(Percent(CountIf(cells, (c: Cell) => IsNoCoverage(c)), |cells|))
    case OverlapArea =>
      if cells != [] then
        Some(Percent(CountIf(cells, (c: Cell) =>
          c.Cell? && c.overlapCount.Some? && c.overlapCount.value >= OVERLAP_MIN_COUNT), |cells|))
      else if grid.summaryOverlap.Some? then grid.summaryOverlap else Some(0.0)
    case AverageOverlap =>
      var counts := PositiveCounts(cells);
      if counts != [] then Some(Sum(counts) / |counts| as real)
      else if grid.summaryAverage.Some? then grid.summaryAverage else Some(0.0)
    case RsrpP10 => OkOrNone(CalculatePercentile(cells, Rsrp, 10.0))
    case SinrP10 => OkOrNone(CalculatePercentile(cells, Sinr, 10.0))
    case ThroughputP10 => OkOrNone(CalculatePercentile(cells, Throughput, 10.0))
  }

  type KpiRecord = map<Metric, Option<real>>

  const METRICS: set<Metric> := {CoveredArea, UncoveredArea, OverlapArea, AverageOverlap, RsrpP10, SinrP10, ThroughputP10}

  lemma AllMetrics(metric: Metric)
    ensures metric in METRICS
  {
  }

  predicate WellFormed(cells: seq<Cell>) {
    forall i :: 0 <= i < |cells| ==> cells[i].Cell?
  }

  /** The extraction asks every cell for its fields, so a cell that is not a record raises. */
  function ExtractKpis(grid: Grid): (r: Result<KpiRecord, KpiError>)
    ensures r.Ok? ==> r.value.Keys == METRICS
  {
    if !WellFormed(grid.cells) then Err(MalformedCell)
    else Ok(map metric | metric in METRICS :: KpiOf(grid, metric))
  }

  function OkOrNone(r: Result<Option<real>, KpiError>): Option<real> {
    match r
    case Ok(v) => v
    case Err(_) => None
  }

  lemma {:induction false} CoverageSplits(cells: seq<Cell>)
    ensures CountIf(cells, (c: Cell) => !IsNoCoverage(c)) + CountIf(cells, (c: Cell) => IsNoCoverage(c)) == |cells|
  {
    if cells != [] {
      CoverageSplits(cells[..|cells| - 1]);
    }
  }

  /**
    The KPIs of a grid are defined exactly when all its cells are well formed. Then covered and uncovered
    area of a non-empty grid add up to the whole, and only its RSRP and SINR percentiles can be missing,
    each exactly when the missing readings reach up to its rank.
  */
  lemma KpisAreConsistent(grid: Grid, metric: Metric)
    ensures ExtractKpis(grid).Ok? <==> WellFormed(grid.cells)
    ensures ExtractKpis(grid).Ok? && grid.cells != [] ==>
              var kpis := ExtractKpis(grid).value;
              && kpis.Keys == METRICS && metric in METRICS
              && kpis[CoveredArea].Some? && kpis[UncoveredArea].Some?
              && kpis[CoveredArea].value + kpis[UncoveredArea].value == 100.0
              && (kpis[metric].None? <==> MissingPercentile(grid.cells, metric))
  {
    hide CountIf, Percent, CalculatePercentile, MissingPercentile;
    var cells := grid.cells;
    if WellFormed(cells) && cells != [] {
      CoverageSplits(cells);
      PercentsAddUp(CountIf(cells, (c: Cell) => !IsNoCoverage(c)), CountIf(cells, (c: Cell) => IsNoCoverage(c)));
      AllMetrics(metric);
      MissingExactly(grid, metric);
    }
  }

  /** The missing readings of a percentile KPI reach up to the rank of its tenth percentile. */
  predicate MissingPercentile(cells: seq<Cell>, metric: Metric) {
    || (metric == RsrpP10 && Rank(10.0, |cells|) <= CountMissing(Readings(cells, Rsrp)))
    || (metric == SinrP10 && Rank(10.0, |cells|) <= CountMissing(Readings(cells, Sinr)))
  }

  lemma MissingExactly(grid: Grid, metric: Metric)
    requires grid.cells != []
    ensures KpiOf(grid, metric).None? <==> MissingPercentile(grid.cells, metric)
  {
    hide CalculatePercentile, CountIf, Percent, Rank, CountMissing, CountBelow, CountUpTo, PositiveCounts;
    PercentileIsOrderStatistic(grid.cells, Rsrp, 10.0);
    PercentileIsOrderStatistic(grid.cells, Sinr, 10.0);
    ThroughputNeverMissing(grid.cells, 10.0);
  }

  lemma PercentsAddUp(a: nat, b: nat)
    requires a + b > 0
    ensures Percent(a, a + b) + Percent(b, a + b) == 100.0
  {
    var n := (a + b) as real;
    var x, y := a as real / n, b as real / n;
    DivideBack(a as real, n);
    DivideBack(b as real, n);
    RealDistribute(x, y, n);
    CancelFactor(x + y, 1.0, n);
    CancelFactor(1.0, x + y, n);
  }
}
