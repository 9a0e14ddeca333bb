/**
  What the KPIs of a grid say about its cells: shares, averages and percentiles, told by the cells' own
  fields.
  Source: backend/services/network_coverage_kpis.py
*/
module KpiMeaning {
  import opened Arithmetic
  import opened Wrappers
  import opened StableSort
  import opened Kpis

  lemma PercentOf(part: nat, total: nat)
    requires total > 0
    ensures Percent(part, total) * total as real == 100.0 * part as real
  {
    var share := part as real / total as real;
    DivideBack(part as real, total as real);
    assert (share * 100.0) * total as real == (share * total as real) * 100.0;
  }

  /** The percentage `percent` is the share of the cells for which `holds`. */
  ghost predicate IsShare(cells: seq<Cell>, holds: Cell -> bool, percent: Option<real>) {
    percent.Some? && percent.value * |cells| as real == 100.0 * CountIf(cells, holds) as real
  }

  /** Served: not marked as a hole, and with a positive overlap count, or with an SINR reading where the count is missing. */
  predicate Served(c: Cell) {
    c.Cell? && !c.markedUncovered && (if c.overlapCount.Some? then c.overlapCount.value > 0.0 else c.sinr.Some?)
  }

  predicate Overlapped(c: Cell) {
    c.Cell? && c.overlapCount.Some? && c.overlapCount.value >= 2.0
  }

  /** Covered area is the share of served cells, uncovered area of the others, overlap area of those with two signals or more. */
  lemma AreasAreShares(grid: Grid)
    requires WellFormed(grid.cells) && grid.cells != []
    ensures ExtractKpis(grid).Ok?
    ensures var kpis := ExtractKpis(grid).value;
            && kpis.Keys == METRICS && CoveredArea in kpis && UncoveredArea in kpis && OverlapArea in kpis
            && IsShare(grid.cells, (c: Cell) => Served(c), kpis[CoveredArea])
            && IsShare(grid.cells, (c: Cell) => !Served(c), kpis[UncoveredArea])
            && IsShare(grid.cells, (c: Cell) => Overlapped(c), kpis[OverlapArea])
  {
    hide Percent, CountIf, PositiveCounts, Sum, CalculatePercentile, OkOrNone;
    var cells := grid.cells;
    CountSame(cells, (c: Cell) => !IsNoCoverage(c), (c: Cell) => Served(c));
    CountSame(cells, (c: Cell) => IsNoCoverage(c), (c: Cell) => !Served(c));
    CountSame(cells, (c: Cell) => c.Cell? && c.overlapCount.Some? && c.overlapCount.value >= OVERLAP_MIN_COUNT, (c: Cell) => Overlapped(c));
    PercentOf(CountIf(cells, (c: Cell) => Served(c)), |cells|);
    PercentOf(CountIf(cells, (c: Cell) => !Served(c)), |cells|);
    PercentOf(CountIf(cells, (c: Cell) => Overlapped(c)), |cells|);
  }

  // ---------- Average overlap

  function Counted(c: Cell): real {
    if Served(c) && c.overlapCount.Some? then c.overlapCount.value else 0.0
  }

  function TotalCount(cells: seq<Cell>): real {
    if cells == [] then 0.0 else TotalCount(cells[..|cells| - 1]) + Counted(cells[|cells| - 1])
  }

  predicate HasCount(c: Cell) {
    Served(c) && c.overlapCount.Some?
  }

  lemma {:induction false} CountsAdded(cells: seq<Cell>)
    ensures |PositiveCounts(cells)| == CountIf(cells, (c: Cell) => HasCount(c))
    ensures Sum(PositiveCounts(cells)) == TotalCount(cells)
  {
    if cells != [] {
      var rest, last := cells[..|cells| - 1], cells[|cells| - 1];
      CountsAdded(rest);
      if HasCount(last) {
        assert PositiveCounts(cells) == PositiveCounts(rest) + [last.overlapCount.value];
        assert PositiveCounts(cells)[..|PositiveCounts(rest)|] == PositiveCounts(rest);
      } else {
        assert PositiveCounts(cells) == PositiveCounts(rest);
      }
    }
  }

  /** Average overlap is the mean count of the served cells that have one; without any the summary's figure stands in, or zero. */
  lemma AverageOverlapIsMean(grid: Grid)
    requires WellFormed(grid.cells)
    ensures ExtractKpis(grid).Ok? && AverageOverlap in ExtractKpis(grid).value
    ensures var n, average := CountIf(grid.cells, (c: Cell) => HasCount(c)), ExtractKpis(grid).value[AverageOverlap];
            && average.Some?
            && (n > 0 ==> average.value * n as real == TotalCount(grid.cells))
            && (n == 0 ==> average.value == if grid.summaryAverage.Some? then grid.summaryAverage.value else 0.0)
  {
    hide CountIf, PositiveCounts, Sum, TotalCount;
    CountsAdded(grid.cells);
    AllMetrics(AverageOverlap);
    var counts := PositiveCounts(grid.cells);
    if counts != [] {
      DivideBack(Sum(counts), |counts| as real);
    }
  }

  // ---------- Percentiles

  /** The field that each measurement is read from; a missing throughput is none at all, that is, zero. */
  function SignalOf(c: Cell): Option<real> {
    if c.Cell? then c.signal else None
  }

  function SinrOf(c: Cell): Option<real> {
    if c.Cell? then c.sinr else None
  }

  function ThroughputOf(c: Cell): Option<real> {
    if c.Cell? && c.throughput.Some? then c.throughput else Some(0.0)
  }

  function Reading(c: Cell, m: Measurement): Option<real> {
    match m
    case Rsrp => SignalOf(c)
    case Sinr => SinrOf(c)
    case Throughput => ThroughputOf(c)
  }

  lemma ReadingIsMeasured(c: Cell, m: Measurement)
    ensures MeasurementValue(c, m) == Reading(c, m)
  {
  }

  /**
    `v` is the p-th percentile of the readings by nearest rank: less than p percent of the cells read
    below it and at least p percent not above it, where a missing reading is below every number. It is
    None exactly when at least p percent of the readings are missing.
  */
  ghost predicate IsPercentile(cells: seq<Cell>, m: Measurement, p: real, v: Option<real>) {
    var share := PartOf(p, |cells|);
    && (v.None? <==> CountIf(cells, (c: Cell) => Reading(c, m).None?) as real >= share)
    && (v.Some? ==>
          && (CountIf(cells, (c: Cell) => Reading(c, m).None? || Reading(c, m).value < v.value) as real) < share
          && CountIf(cells, (c: Cell) => Reading(c, m).None? || Reading(c, m).value <= v.value) as real >= share)
  }

  /** `p` percent of `n`. */
  function PartOf(p: real, n: nat): real {
    p / 100.0 * n as real
  }

  /** Counting readings is counting cells. */
  lemma {:induction false} CountReadings(cells: seq<Cell>, m: Measurement, f: Option<real> -> bool)
    ensures CountIf(Readings(cells, m), f) == CountIf(cells, (c: Cell) => f(Reading(c, m)))
  {
    if cells != [] {
      var rest := cells[..|cells| - 1];
      CountReadings(rest, m, f);
      assert Readings(cells, m)[..|rest|] == Readings(rest, m);
      ReadingIsMeasured(cells[|rest|], m);
    }
  }

  lemma RankAndShare(p: real, n: nat, k: nat)
    requires 0.0 < p <= 100.0 && n > 0
    ensures Rank(p, n) <= k <==> PartOf(p, n) <= k as real
    ensures k < Rank(p, n) <==> (k as real) < PartOf(p, n)
  {
    RankRange(p, n);
  }

  /** Percentiles of every measurement are percentiles of the cells' own field. */
  lemma PercentileOfField(cells: seq<Cell>, m: Measurement, p: real)
    requires 0.0 < p <= 100.0 && cells != []
    ensures CalculatePercentile(cells, m, p).Ok?
    ensures IsPercentile(cells, m, p, CalculatePercentile(cells, m, p).value)
  {
    hide CalculatePercentile, CountIf, Rank, PartOf, CountMissing, CountBelow, CountUpTo, Reading;
    PercentileIsOrderStatistic(cells, m, p);
    var v := CalculatePercentile(cells, m, p).value;
    MissingCells(cells, m);
    RankAndShare(p, |cells|, CountMissing(Readings(cells, m)));
    if v.Some? {
      BelowCells(cells, m, v.value);
      RankAndShare(p, |cells|, CountBelow(Readings(cells, m), v));
      RankAndShare(p, |cells|, CountUpTo(Readings(cells, m), v));
    }
  }

  lemma MissingCells(cells: seq<Cell>, m: Measurement)
    ensures CountMissing(Readings(cells, m)) == CountIf(cells, (c: Cell) => Reading(c, m).None?)
  {
    hide CountIf;
    var f := (r: Option<real>) => r.None?;
    CountReadings(cells, m, f);
    CountSame(cells, (c: Cell) => f(Reading(c, m)), (c: Cell) => Reading(c, m).None?);
  }

  lemma BelowCells(cells: seq<Cell>, m: Measurement, x: real)
    ensures CountBelow(Readings(cells, m), Some(x))
         == CountIf(cells, (c: Cell) => Reading(c, m).None? || Reading(c, m).value < x)
    ensures CountUpTo(Readings(cells, m), Some(x))
         == CountIf(cells, (c: Cell) => Reading(c, m).None? || Reading(c, m).value <= x)
  {
    hide CountIf;
    var below, upTo := (r: Option<real>) => Below(r, Some(x)), (r: Option<real>) => !Below(Some(x), r);
    CountReadings(cells, m, below);
    CountReadings(cells, m, upTo);
    hide Reading;
    CountSame(cells, (c: Cell) => below(Reading(c, m)), (c: Cell) => Reading(c, m).None? || Reading(c, m).value < x);
    CountSame(cells, (c: Cell) => upTo(Reading(c, m)), (c: Cell) => Reading(c, m).None? || Reading(c, m).value <= x);
  }

  /** The three percentile KPIs are the tenth percentiles of signal strength, SINR and throughput. */
  lemma PercentileKpisAreTenths(grid: Grid)
    requires WellFormed(grid.cells) && grid.cells != []
    ensures ExtractKpis(grid).Ok?
    ensures var kpis := ExtractKpis(grid).value;
            && kpis.Keys == METRICS && RsrpP10 in kpis && SinrP10 in kpis && ThroughputP10 in kpis
            && IsPercentile(grid.cells, Rsrp, 10.0, kpis[RsrpP10])
            && IsPercentile(grid.cells, Sinr, 10.0, kpis[SinrP10])
            && IsPercentile(grid.cells, Throughput, 10.0, kpis[ThroughputP10])
  {
    hide CalculatePercentile, IsPercentile;
    AllMetrics(RsrpP10);
    PercentileOfField(grid.cells, Rsrp, 10.0);
    PercentileOfField(grid.cells, Sinr, 10.0);
    PercentileOfField(grid.cells, Throughput, 10.0);
  }

  // ---------- Threshold areas

  predicate Meets(reading: Option<real>, op: Operator, threshold: real) {
    && reading.Some?
    && (op == Less ==> reading.value < threshold)
    && (op == AtMost ==> reading.value <= threshold)
    && (op == Greater ==> reading.value > threshold)
    && (op == AtLeast ==> reading.value >= threshold)
    && (op == Equal ==> reading.value == threshold)
  }

  /** The threshold area is the share of the cells whose own reading meets the threshold. */
  lemma ThresholdAreaIsShare(cells: seq<Cell>, m: Measurement, op: Operator, threshold: real)
    requires cells != [] && op != Equal
    ensures ThresholdArea(cells, m, op, threshold).Ok?
    ensures var area := ThresholdArea(cells, m, op, threshold).value;
            && area.passing == CountIf(cells, (c: Cell) => Meets(Reading(c, m), op, threshold)) && area.total == |cells|
            && IsShare(cells, (c: Cell) => Meets(Reading(c, m), op, threshold), Some(area.areaPercent))
  {
    hide CountIf, Percent;
    var f := (r: Option<real>) => Passes(r, op, threshold);
    CountReadings(cells, m, f);
    CountSame(cells, (c: Cell) => f(Reading(c, m)), (c: Cell) => Meets(Reading(c, m), op, threshold));
    PercentOf(CountIf(cells, (c: Cell) => Meets(Reading(c, m), op, threshold)), |cells|);
  }
}
