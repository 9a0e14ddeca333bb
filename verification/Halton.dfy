/**
  The Halton sampler's radical inverse: its range, its injectivity, and how
  evenly consecutive samples fall.
  Source: backend/services/optimization_service.py, `radical_inverse` and
  `deterministic_global_candidates`
*/
module Halton {
  import opened Arithmetic

  function Digit(index: nat, base: nat): (d: nat)
    requires base >= 2
    ensures d < base
  {
    DivMod(index, base);
    index % base
  }

  function Rest(index: nat, base: nat): (rest: nat)
    requires base >= 2
    ensures index > 0 ==> rest < index
  {
    DivMod(index, base);
    MulMonotone(2, base, index / base);
    index / base
  }

  /** The digits of `index` in the given base, mirrored behind the radix point. */
  function RadicalInverse(index: nat, base: nat): real
    requires base >= 2
    decreases index
  {
    if index == 0 then 0.0
    else (Digit(index, base) as real + RadicalInverse(Rest(index, base), base)) / base as real
  }

  /** The source's loop adds the digits from the most significant place on. */
  method ComputeRadicalInverse(index: nat, base: nat) returns (result: real)
    requires base >= 2
    ensures result == RadicalInverse(index, base)
  {
    hide Digit, Rest, RadicalInverse;
    result := 0.0;
    var fraction := 1.0 / base as real;
    var rest := index;
    DivideBack(1.0, base as real);
    ghost var scale := 1.0;  // the place value of the part still to add
    while rest != 0
      invariant rest >= 0 && fraction * base as real == scale
      invariant result + scale * RadicalInverse(rest, base) == RadicalInverse(index, base)
      decreases rest
    {
      SplitDigit(rest, base, scale, fraction);
      result := result + fraction * Digit(rest, base) as real;
      rest := Rest(rest, base);
      DivideBack(fraction, base as real);
      scale := fraction;
      fraction := fraction / base as real;
    }
    ZeroSample(base);
  }

  lemma ZeroSample(base: nat)
    requires base >= 2
    ensures RadicalInverse(0, base) == 0.0
  {
  }

  lemma SplitDigit(rest: nat, base: nat, scale: real, fraction: real)
    requires base >= 2 && fraction * base as real == scale
    ensures scale * RadicalInverse(rest, base) ==
            fraction * Digit(rest, base) as real + fraction * RadicalInverse(Rest(rest, base), base)
  {
    hide Digit, Rest, RadicalInverse;
    Unfold(rest, base);
    SpreadOver(fraction, base as real, RadicalInverse(rest, base),
               Digit(rest, base) as real, RadicalInverse(Rest(rest, base), base));
  }

  lemma SpreadOver(f: real, b: real, x: real, d: real, r: real)
    requires x * b == d + r
    ensures (f * b) * x == f * d + f * r
  {
    assert (f * b) * x == f * (x * b);
  }

  lemma Unfold(index: nat, base: nat)
    requires base >= 2
    ensures RadicalInverse(index, base) * base as real ==
            Digit(index, base) as real + RadicalInverse(Rest(index, base), base)
  {
    if index == 0 {
      ZeroDigits(base);
    } else {
      UnfoldPositive(index, base);
    }
  }

  lemma ZeroDigits(base: nat)
    requires base >= 2
    ensures Digit(0, base) == 0 && Rest(0, base) == 0
  {
    DivModUnique(0, base, 0, 0);
  }

  lemma UnfoldPositive(index: nat, base: nat)
    requires base >= 2 && index > 0
    ensures RadicalInverse(index, base) * base as real ==
            Digit(index, base) as real + RadicalInverse(Rest(index, base), base)
  {
    hide Digit, Rest, RadicalInverse;
    UnfoldQuotient(index, base);
    DivideBack(Digit(index, base) as real + RadicalInverse(Rest(index, base), base), base as real);
  }

  lemma UnfoldQuotient(index: nat, base: nat)
    requires base >= 2 && index > 0
    ensures RadicalInverse(index, base) == (Digit(index, base) as real + RadicalInverse(Rest(index, base), base)) / base as real
  {
    hide Digit, Rest;
  }

  lemma QuotientInUnit(x: real, b: real, d: real, r: real)
    requires b > 0.0 && x * b == d + r && 0.0 <= d <= b - 1.0 && 0.0 <= r < 1.0
    ensures 0.0 <= x < 1.0
  {
    assert 0.0 * b <= x * b;
    CancelFactor(0.0, x, b);
    assert x * b < 1.0 * b;
    CancelFactor(x, 1.0, b);
  }

  /** Every sample lies in the half-open unit interval. */
  lemma {:induction false} InUnitInterval(index: nat, base: nat)
    requires base >= 2
    ensures 0.0 <= RadicalInverse(index, base) < 1.0
    decreases index
  {
    hide Digit, Rest, RadicalInverse;
    if index == 0 {
      ZeroSample(base);
    } else {
      InUnitInterval(Rest(index, base), base);
      Unfold(index, base);
      QuotientInUnit(RadicalInverse(index, base), base as real, Digit(index, base) as real,
                     RadicalInverse(Rest(index, base), base));
    }
  }

  /** The lowest `k` digits of `index`, reversed. */
  function Reversed(index: nat, base: nat, k: nat): nat
    requires base >= 2
  {
    if k == 0 then 0 else (Digit(index, base)) * Power(base, k - 1) + Reversed(Rest(index, base), base, k - 1)
  }

  function Leading(cell: nat, p: nat): nat
    requires p > 0
  {
    cell / p
  }

  function Trailing(cell: nat, p: nat): (low: nat)
    requires p > 0
    ensures low < p && cell == p * Leading(cell, p) + low
  {
    DivMod(cell, p);
    cell % p
  }

  /** The index whose lowest `k` digits reversed are `cell`. */
  function Unreversed(cell: nat, base: nat, k: nat): nat
    requires base >= 2
    decreases k
  {
    if k == 0 then 0
    else
      PowerPositive(base, k - 1);
      var p := Power(base, k - 1);
      Leading(cell, p) + base * Unreversed(Trailing(cell, p), base, k - 1)
  }

  /** `index` falls into cell `cell` of the `Power(base, k)` equal cells of the unit interval. */
  predicate FallsIn(index: nat, base: nat, k: nat, cell: nat)
    requires base >= 2
  {
    cell as real <= RadicalInverse(index, base) * Power(base, k) as real < cell as real + 1.0
  }

  lemma {:induction false} FallsInReversed(index: nat, base: nat, k: nat)
    requires base >= 2
    ensures FallsIn(index, base, k, Reversed(index, base, k))
    decreases k
  {
    hide Digit, Rest, RadicalInverse, Power;
    PowerStep(base, k);
    if k == 0 {
      InUnitInterval(index, base);
    } else {
      FallsInReversed(Rest(index, base), base, k - 1);
      Unfold(index, base);
      FallsInStep(RadicalInverse(index, base), base, Power(base, k - 1), Digit(index, base),
                  RadicalInverse(Rest(index, base), base), Reversed(Rest(index, base), base, k - 1));
    }
  }

  lemma FallsInStep(x: real, base: nat, p: nat, digit: nat, r: real, low: nat)
    requires x * base as real == digit as real + r && low as real <= r * p as real < low as real + 1.0
    ensures (digit * p + low) as real <= x * (base * p) as real < (digit * p + low) as real + 1.0
  {
    CastProduct(base, p);
    CastProduct(digit, p);
    var pr, d := p as real, digit as real;
    assert x * (base as real * pr) == (x * base as real) * pr == d * pr + r * pr;
  }

  lemma {:induction false} ReversedBound(index: nat, base: nat, k: nat)
    requires base >= 2
    ensures Reversed(index, base, k) < Power(base, k)
    decreases k
  {
    hide Digit, Rest;
    if k > 0 {
      ReversedBound(Rest(index, base), base, k - 1);
      DigitBound(Digit(index, base), base, Reversed(Rest(index, base), base, k - 1), Power(base, k - 1));
    }
  }

  lemma LeadingBound(cell: nat, base: nat, p: nat)
    requires p > 0 && cell < base * p
    ensures Leading(cell, p) < base
  {
    LeadingDigit(cell, base, p);
  }

  lemma ReversedStep(hi: nat, u: nat, base: nat, k: nat)
    requires hi < base && base >= 2 && k > 0
    ensures Reversed(hi + base * u, base, k) == hi * Power(base, k - 1) + Reversed(u, base, k - 1)
  {
    hide Power;
    DivModUnique(hi + base * u, base, u, hi);
  }

  lemma LeadsWith(digit: nat, low: nat, p: nat)
    requires low < p
    ensures Leading(digit * p + low, p) == digit && Trailing(digit * p + low, p) == low
  {
    DivModUnique(digit * p + low, p, digit, low);
  }

  lemma ReversedZero(base: nat)
    requires base >= 2
    ensures Reversed(0, base, 0) == 0
  {
  }

  lemma {:induction false} UnreversedInverse(cell: nat, base: nat, k: nat)
    requires base >= 2 && cell < Power(base, k)
    ensures Unreversed(cell, base, k) < Power(base, k)
    ensures Reversed(Unreversed(cell, base, k), base, k) == cell
    decreases k
  {
    hide Digit, Rest, Leading, Trailing, Reversed, Power;
    PowerStep(base, k);
    if k == 0 {
      ReversedZero(base);
    } else {
      PowerPositive(base, k - 1);
      var p := Power(base, k - 1);
      LeadingBound(cell, base, p);
      var hi, lo := Leading(cell, p), Trailing(cell, p);
      UnreversedInverse(lo, base, k - 1);
      ReversedStep(hi, Unreversed(lo, base, k - 1), base, k);
      assert hi * p == p * hi;
      DigitBound(Unreversed(lo, base, k - 1), p, hi, base);
    }
  }

  lemma {:induction false} ReversedInverse(index: nat, base: nat, k: nat)
    requires base >= 2
    ensures Power(base, k) > 0
    ensures Unreversed(Reversed(index, base, k), base, k) == index % Power(base, k)
    decreases k
  {
    hide Leading, Trailing;
    PowerPositive(base, k);
    if k > 0 {
      PowerPositive(base, k - 1);
      ReversedInverse(Rest(index, base), base, k - 1);
      ReversedBound(Rest(index, base), base, k - 1);
      var p := Power(base, k - 1);
      LeadsWith(Digit(index, base), Reversed(Rest(index, base), base, k - 1), p);
      ModProduct(index, base, p);
    }
  }

  lemma CellUnique(x: real, a: nat, b: nat)
    requires a as real <= x < a as real + 1.0 && b as real <= x < b as real + 1.0
    ensures a == b
  {
    assert a as real < b as real + 1.0 && b as real < a as real + 1.0;
    assert a < b + 1 && b < a + 1;
  }

  /** Being in a cell is a congruence: exactly the indices with the cell's mirrored digits fall into it. */
  lemma CellIsResidue(index: nat, base: nat, k: nat, cell: nat)
    requires base >= 2 && cell < Power(base, k)
    ensures Power(base, k) > 0
    ensures FallsIn(index, base, k, cell) <==> index % Power(base, k) == Unreversed(cell, base, k)
  {
    FallsInReversed(index, base, k);
    ReversedInverse(index, base, k);
    ReversedBound(index, base, k);
    UnreversedInverse(cell, base, k);
    UnreversedInverse(Reversed(index, base, k), base, k);
    if FallsIn(index, base, k, cell) {
      CellUnique(RadicalInverse(index, base) * Power(base, k) as real, cell, Reversed(index, base, k));
    }
  }

  /** The one number of a window of `m` consecutive ones that has a given residue. */
  function InWindow(start: nat, m: nat, residue: nat): (i: nat)
    requires residue < m
    ensures start <= i < start + m && i % m == residue
    ensures forall other: nat :: start <= other < start + m && other % m == residue ==> other == i
  {
    var s := start % m;
    var i := if residue >= s then start + (residue - s) else start + m - (s - residue);
    assert i % m == residue by {
      assert start == m * (start / m) + s;
      if residue >= s {
        DivModUnique(i, m, start / m, residue);
      } else {
        assert m * (start / m + 1) == m * (start / m) + m;
        DivModUnique(i, m, start / m + 1, residue);
      }
    }
    WindowUnique(start, m, residue, i);
    i
  }

  lemma WindowUnique(start: nat, m: nat, residue: nat, i: nat)
    requires residue < m && start <= i < start + m && i % m == residue
    ensures forall other: nat :: start <= other < start + m && other % m == residue ==> other == i
  {
    forall other: nat | start <= other < start + m && other % m == residue ensures other == i {
      assert other - i == m * (other / m - i / m);
      ScaleAtLeast(m, other / m - i / m);
      ScaleAtLeast(m, i / m - other / m);
    }
  }

  /** Even sampling: any `base^k` consecutive samples hit every one of the `base^k` cells exactly once. */
  lemma StratifiedSampling(start: nat, base: nat, k: nat, cell: nat) returns (i: nat)
    requires base >= 2 && cell < Power(base, k)
    ensures start <= i < start + Power(base, k) && FallsIn(i, base, k, cell)
    ensures forall other: nat :: start <= other < start + Power(base, k) && FallsIn(other, base, k, cell) ==> other == i
  {
    UnreversedInverse(cell, base, k);
    i := InWindow(start, Power(base, k), Unreversed(cell, base, k));
    CellIsResidue(i, base, k, cell);
    forall other: nat | start <= other < start + Power(base, k) && FallsIn(other, base, k, cell) ensures other == i {
      CellIsResidue(other, base, k, cell);
    }
  }

  lemma SameCell(a: nat, b: nat, base: nat, k: nat)
    requires base >= 2 && RadicalInverse(a, base) == RadicalInverse(b, base)
    ensures Reversed(a, base, k) == Reversed(b, base, k)
  {
    hide Reversed, RadicalInverse;
    FallsInReversed(a, base, k);
    FallsInReversed(b, base, k);
    CellUnique(RadicalInverse(a, base) * Power(base, k) as real, Reversed(a, base, k), Reversed(b, base, k));
  }

  /** No two indices share a sample. */
  lemma RadicalInverseInjective(a: nat, b: nat, base: nat)
    requires base >= 2 && RadicalInverse(a, base) == RadicalInverse(b, base)
    ensures a == b
  {
    var k := a + b;
    SameCell(a, b, base, k);
    hide RadicalInverse, Reversed, Unreversed, Power;
    PowerExceeds(base, k);
    ReversedInverse(a, base, k);
    ReversedInverse(b, base, k);
    DivModUnique(a, Power(base, k), 0, a);
    DivModUnique(b, Power(base, k), 0, b);
  }

  // ---------- The digits of a sample

  /** The digit of `index` at place `place`, counted from the lowest. */
  function DigitAt(index: nat, base: nat, place: nat): nat
    requires base >= 2
  {
    PowerPositive(base, place);
    DivMod(index, Power(base, place));
    DivMod(index / Power(base, place), base);
    index / Power(base, place) % base
  }

  /** The number whose digits are the lowest `k` digits of `index`, from the lowest down. */
  function Mirrored(index: nat, base: nat, k: nat): nat
    requires base >= 2
  {
    if k == 0 then 0 else base * Mirrored(index, base, k - 1) + DigitAt(index, base, k - 1)
  }

  lemma NextPlace(index: nat, base: nat, k: nat)
    requires base >= 2
    ensures Power(base, k) > 0 && Power(base, k + 1) > 0
    ensures index / Power(base, k) >= 0 && index / Power(base, k + 1) >= 0
    ensures Digit(index / Power(base, k), base) == DigitAt(index, base, k)
    ensures Rest(index / Power(base, k), base) == index / Power(base, k + 1)
  {
    hide Power;
    PowerPositive(base, k);
    PowerPositive(base, k + 1);
    PowerStep(base, k + 1);
    DivMod(index, Power(base, k));
    DivMod(index, Power(base, k + 1));
    DivByProduct(index, Power(base, k), base);
    NextDigit(index / Power(base, k), base);
  }

  lemma NextDigit(rest: nat, base: nat)
    requires base >= 2
    ensures Digit(rest, base) == rest % base && Rest(rest, base) == rest / base
  {
  }

  lemma MirroredStep(index: nat, base: nat, k: nat)
    requires base >= 2
    ensures Mirrored(index, base, k) == if k == 0 then 0 else base * Mirrored(index, base, k - 1) + DigitAt(index, base, k - 1)
  {
  }

  lemma DivByProduct(n: nat, p: nat, base: nat)
    requires p > 0 && base > 0
    ensures base * p > 0 && n / (base * p) == n / p / base
  {
    var q := n / p;
    DivMod(n, p);
    DivMod(q, base);
    ScaleAtLeast(base, p);
    Distribute(base * (q / base), q % base, p);
    Regroup(q / base, base, p);
    DigitBound(q % base, base, n % p, p);
    DivModUnique(n, base * p, q / base, (q % base) * p + n % p);
  }

  lemma ScaleUnfolded(x: real, p: real, b: real, m: real, d: real, y: real, z: real)
    requires x * p == m + y && y * b == d + z
    ensures x * (b * p) == (b * m + d) + z
  {
    assert x * (b * p) == b * (x * p);
    assert b * (m + y) == b * m + y * b;
  }

  /** The first `k` digits behind the radix point are the lowest `k` digits of the index, and the rest is the rest's sample. */
  lemma {:induction false} DigitsAreMirrored(index: nat, base: nat, k: nat)
    requires base >= 2
    ensures Power(base, k) > 0 && index / Power(base, k) >= 0
    ensures RadicalInverse(index, base) * Power(base, k) as real
         == Mirrored(index, base, k) as real + RadicalInverse(index / Power(base, k), base)
  {
    hide Digit, Rest, RadicalInverse, DigitAt, Power, Mirrored;
    PowerPositive(base, k);
    PowerStep(base, k);
    MirroredStep(index, base, k);
    DivMod(index, Power(base, k));
    if k > 0 {
      DigitsAreMirrored(index, base, k - 1);
      NextPlace(index, base, k - 1);
      Unfold(index / Power(base, k - 1), base);
      CastProduct(base, Power(base, k - 1));
      CastProduct(base, Mirrored(index, base, k - 1));
      ScaleUnfolded(RadicalInverse(index, base), Power(base, k - 1) as real, base as real, Mirrored(index, base, k - 1) as real,
                    DigitAt(index, base, k - 1) as real, RadicalInverse(index / Power(base, k - 1), base),
                    RadicalInverse(index / Power(base, k), base));
    } else {
      DivModUnique(index, 1, index, 0);
    }
  }

  /** A sample is the index with its digits mirrored: the lowest digit counts most. */
  lemma SampleIsMirroredIndex(index: nat, base: nat, k: nat)
    requires base >= 2 && index < Power(base, k)
    ensures RadicalInverse(index, base) * Power(base, k) as real == Mirrored(index, base, k) as real
  {
    hide RadicalInverse, Mirrored, Power;
    DigitsAreMirrored(index, base, k);
    DivModUnique(index, Power(base, k), 0, index);
    ZeroSample(base);
  }

  /** The value of a dimension that a sample selects: `min(int(fraction * n), n - 1)`. */
  function ValueIndex(fraction: real, n: nat): (v: int)
    requires 0.0 <= fraction < 1.0 && n > 0
    ensures 0 <= v < n && v as real <= fraction * n as real < v as real + 1.0
  {
    assert 0.0 <= fraction * n as real < n as real by {
      assert (1.0 - fraction) * n as real > 0.0;
    }
    var v := (fraction * n as real).Floor;
    if v < n - 1 then v else n - 1
  }

  /** The cell of a grid of at least `2n` cells that lies inside value `v`'s share of the unit interval. */
  function CellOfValue(v: nat, n: nat, cells: nat): (cell: nat)
    requires v < n && cells >= 2 * n
    ensures cell < cells && v * cells <= cell * n && (cell + 1) * n <= (v + 1) * cells
  {
    var cell := (v * cells + n - 1) / n;
    DivMod(v * cells + n - 1, n);
    Distribute(v, 1, cells);
    Distribute(cell, 1, n);
    MulMonotone(v + 1, n, cells);
    NotBeyond(cell, cells, n);
    cell
  }

  lemma NotBeyond(cell: nat, cells: nat, n: nat)
    requires n > 0 && (cell + 1) * n <= n * cells
    ensures cell < cells
  {
    if cell >= cells {
      MulMonotone(cells + 1, cell + 1, n);
      Distribute(cells, 1, n);
    }
  }

  lemma CellSelectsValue(i: nat, base: nat, k: nat, v: nat, n: nat)
    requires base >= 2 && v < n && Power(base, k) >= 2 * n
    requires FallsIn(i, base, k, CellOfValue(v, n, Power(base, k)))
    ensures 0.0 <= RadicalInverse(i, base) < 1.0 && ValueIndex(RadicalInverse(i, base), n) == v
  {
    hide Digit, Rest, RadicalInverse, Power, CellOfValue, ValueIndex;
    InUnitInterval(i, base);
    var x := RadicalInverse(i, base);
    ScaleToValue(x, Power(base, k), n, v, CellOfValue(v, n, Power(base, k)));
    CellUnique(x * n as real, v, ValueIndex(x, n));
  }

  lemma ScaleToValue(x: real, p: nat, n: nat, v: nat, cell: nat)
    requires p > 0 && n > 0 && cell as real <= x * p as real < cell as real + 1.0
    requires v * p <= cell * n && (cell + 1) * n <= (v + 1) * p
    ensures v as real <= x * n as real < v as real + 1.0
  {
    CastProduct(v, p);
    CastProduct(v + 1, p);
    CastProduct(cell, n);
    CastProduct(cell + 1, n);
    Exchange(x, p as real, n as real);
    ScaleAbove(x * p as real, x * n as real, p as real, n as real, v as real, cell as real);
    ScaleBelow(x * p as real, x * n as real, p as real, n as real, (v + 1) as real, (cell + 1) as real);
  }

  lemma ScaleAbove(a: real, y: real, p: real, n: real, v: real, c: real)
    requires p > 0.0 && n > 0.0 && a * n == y * p && c <= a && v * p <= c * n
    ensures v <= y
  {
    RealMonotone(c, a, n);
    assert v * p <= c * n <= a * n == y * p;
    CancelFactor(v, y, p);
  }

  lemma ScaleBelow(a: real, y: real, p: real, n: real, v: real, c: real)
    requires p > 0.0 && n > 0.0 && a * n == y * p && a < c && c * n <= v * p
    ensures y < v
  {
    StrictScale(a, c, n);
    assert y * p == a * n < c * n <= v * p;
    CancelFactor(y, v, p);
  }

  lemma Exchange(x: real, p: real, n: real)
    ensures (x * p) * n == (x * n) * p
  {
  }

  lemma StrictScale(a: real, b: real, c: real)
    requires a < b && c > 0.0
    ensures a * c < b * c
  {
    assert (b - a) * c > 0.0;
  }

  /** Every value of an `n`-value dimension is sampled within any `base^k` consecutive samples once `base^k >= 2n`. */
  lemma EveryValueIsSampled(start: nat, base: nat, k: nat, v: nat, n: nat) returns (i: nat)
    requires base >= 2 && v < n && Power(base, k) >= 2 * n
    ensures start <= i < start + Power(base, k)
    ensures 0.0 <= RadicalInverse(i, base) < 1.0 && ValueIndex(RadicalInverse(i, base), n) == v
  {
    i := StratifiedSampling(start, base, k, CellOfValue(v, n, Power(base, k)));
    CellSelectsValue(i, base, k, v, n);
  }
}
