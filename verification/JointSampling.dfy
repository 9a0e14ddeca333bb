/**
  Halton samples in several dimensions: since the bases are different primes, the samples are even
  in all dimensions together, so exploration reaches every combination of values.
  Source: backend/services/optimization_service.py
*/
module JointSampling {
  import opened Arithmetic
  import opened Halton
  import opened Primes

  // ---------- Bezout coefficients

  lemma Divides(n: int, d: nat, q: int)
    requires d > 0 && n == d * q
    ensures n % d == 0
  {
    DivModUnique(n, d, q, 0);
  }

  lemma CombineMultiples(a: int, b: int, g: nat, q: int)
    requires g > 0 && a % g == 0 && b % g == 0
    ensures (b * q + a) % g == 0
  {
    var x, y := a / g, b / g;
    assert a == g * x && b == g * y;
    assert b * q == g * (y * q);
    Distribute(y * q, x, g);
    Divides(b * q + a, g, y * q + x);
  }

  /** The extended Euclidean algorithm. */
  lemma {:induction false} Bezout(a: nat, b: nat) returns (g: nat, x: int, y: int)
    requires a + b > 0
    ensures g > 0 && a % g == 0 && b % g == 0 && g == a * x + b * y
    decreases b
  {
    if b == 0 {
      g, x, y := a, 1, 0;
      Divides(a, a, 1);
    } else {
      var q, r := a / b, a % b;
      DivMod(a, b);
      var u, v;
      g, u, v := Bezout(b, r);
      CombineMultiples(r, b, g, q);
      x, y := v, u - q * v;
      Regroup(b, q, v);
      Distribute(b * q, r, v);
      Distribute(u, -(q * v), b);
    }
  }

  lemma SoleDivisor(p: nat, d: nat)
    requires IsPrime(p) && d >= 2 && p % d == 0
    ensures d == p
  {
    if d > p {
      DivModUnique(p, d, 0, p);
    }
  }

  lemma DistinctPrimesCoprime(p: nat, q: nat) returns (x: int, y: int)
    requires IsPrime(p) && IsPrime(q) && p != q
    ensures p * x + q * y == 1
  {
    var g;
    g, x, y := Bezout(p, q);
    if g >= 2 {
      SoleDivisor(p, g);
      SoleDivisor(q, g);
    }
  }

  /** Coprimality with `m` passes to products. */
  lemma ProductCoprime(a: int, b: int, m: int, x: int, y: int, x': int, y': int) returns (u: int, v: int)
    requires a * x + m * y == 1 && b * x' + m * y' == 1
    ensures (a * b) * u + m * v == 1
  {
    u, v := x * x', a * x * y' + y;
    Substitute(a * x, b * x', m, y, y');
    assert (a * b) * (x * x') == (a * x) * (b * x');
  }

  lemma Substitute(s: int, t: int, m: int, y: int, y': int)
    requires s + m * y == 1 && t + m * y' == 1
    ensures s * t + m * (s * y' + y) == 1
  {
    assert s * (t + m * y') == s * t + s * (m * y');
    assert s * (m * y') == m * (s * y');
    Distribute(s * y', y, m);
  }

  lemma {:induction false} PowerCoprime(p: nat, k: nat, m: int, x: int, y: int) returns (u: int, v: int)
    requires p * x + m * y == 1
    ensures Power(p, k) * u + m * v == 1
    decreases k
  {
    PowerStep(p, k);
    if k == 0 {
      u, v := 1, 0;
    } else {
      var u', v' := PowerCoprime(p, k - 1, m, x, y);
      u, v := ProductCoprime(p, Power(p, k - 1), m, x, y, u', v');
    }
  }

  // ---------- The Chinese remainder theorem

  /** One residue for two: for coprime moduli, two residues are together one residue of the product. */
  lemma PairResidue(a: nat, c: nat, m: nat, r: nat, x: int, y: int) returns (joint: nat)
    requires c < a && r < m && a * x + m * y == 1
    ensures a * m > 0 && joint < a * m
    ensures forall i: nat :: i % a == c && i % m == r <==> i % (a * m) == joint
  {
    var t := ((r - c) * x) % m;
    joint := a * t + c;
    MulMonotone(1, a, m);
    DigitBound(t, m, c, a);
    DivModUnique(joint, a, t, c);
    StepsToResidue(a, c, m, r, x, y, t);
    forall i: nat ensures i % a == c && i % m == r <==> i % (a * m) == joint {
      if i % (a * m) == joint {
        SplitResidue(i, a, m, joint);
      }
      if i % a == c && i % m == r {
        JoinResidues(i, joint, a, m, x, y);
      }
    }
  }

  lemma StepsToResidue(a: nat, c: nat, m: nat, r: nat, x: int, y: int, t: nat)
    requires a > 0 && r < m && a * x + m * y == 1 && t == ((r - c) * x) % m
    ensures (a * t + c) % m == r
  {
    var d := r - c;
    var q := (d * x) / m;
    DivMod(d * x, m);
    assert t == d * x - m * q;
    assert a * t == a * (d * x) - a * (m * q);
    assert a * (d * x) == d * (a * x);
    assert d * (a * x) == d - d * (m * y) by {
      Distribute(a * x, m * y, d);
    }
    assert a * (m * q) == m * (a * q) && d * (m * y) == m * (d * y);
    Distribute(d * y, a * q, m);
    assert a * t + c == m * (-(d * y + a * q)) + r;
    DivModUnique(a * t + c, m, -(d * y + a * q), r);
  }

  lemma SplitResidue(i: nat, a: nat, m: nat, joint: nat)
    requires a > 0 && m > 0 && a * m > 0 && i % (a * m) == joint
    ensures i % a == joint % a && i % m == joint % m
  {
    var q := i / (a * m);
    DivMod(i, a * m);
    Regroup(a, m, q);
    ShiftResidue(joint, a, m * q);
    assert a * m * q == m * (a * q);
    ShiftResidue(joint, m, a * q);
  }

  lemma ShiftResidue(n: nat, d: nat, q: int)
    requires d > 0
    ensures (d * q + n) % d == n % d
  {
    DivMod(n, d);
    Distribute(q, n / d, d);
    DivModUnique(d * q + n, d, q + n / d, n % d);
  }

  lemma JoinResidues(i: nat, j: nat, a: nat, m: nat, x: int, y: int)
    requires a > 0 && m > 0 && a * m > 0 && j < a * m && a * x + m * y == 1
    requires i % a == j % a && i % m == j % m
    ensures i % (a * m) == j
  {
    DivMod(i, a);
    DivMod(j, a);
    DivMod(i, m);
    DivMod(j, m);
    var u, v := i / a - j / a, i / m - j / m;
    Distribute(i / a, -(j / a), a);
    Distribute(i / m, -(j / m), m);
    CommonMultiple(i - j, a, m, x, y, u, v);
    DivModUnique(i, a * m, v * x + u * y, j);
  }

  lemma CommonMultiple(d: int, a: int, m: int, x: int, y: int, u: int, v: int)
    requires a * x + m * y == 1 && d == a * u && d == m * v
    ensures d == (a * m) * (v * x + u * y)
  {
    Distribute(a * x, m * y, d);
    assert (a * x) * d == (a * x) * (m * v) == (a * m) * (v * x);
    assert (m * y) * d == (m * y) * (a * u) == (a * m) * (u * y);
    Distribute(v * x, u * y, a * m);
  }

  // ---------- Several bases

  /** Number of boxes: the product of the cell counts of all dimensions. */
  function Boxes(bases: seq<nat>, ks: seq<nat>): nat
    requires |bases| == |ks|
  {
    if bases == [] then 1
    else
      var n := |bases| - 1;
      Boxes(bases[..n], ks[..n]) * Power(bases[n], ks[n])
  }

  ghost predicate DistinctPrimes(bases: seq<nat>) {
    && (forall i :: 0 <= i < |bases| ==> IsPrime(bases[i]))
    && (forall i, j :: 0 <= i < j < |bases| ==> bases[i] != bases[j])
  }

  lemma {:induction false} BoxesCoprime(bases: seq<nat>, ks: seq<nat>, q: nat, k: nat) returns (x: int, y: int)
    requires |bases| == |ks| && DistinctPrimes(bases) && IsPrime(q) && forall i :: 0 <= i < |bases| ==> bases[i] != q
    ensures Boxes(bases, ks) * x + Power(q, k) * y == 1
    decreases |bases|
  {
    if bases == [] {
      x, y := 1, 0;
    } else {
      var n := |bases| - 1;
      x, y := BoxesCoprime(bases[..n], ks[..n], q, k);
      var s, t := DistinctPrimesCoprime(bases[n], q);
      var u, v := PowerCoprime(q, k, bases[n], t, s);
      var u', v' := PowerCoprime(bases[n], ks[n], Power(q, k), v, u);
      x, y := ProductCoprime(Boxes(bases[..n], ks[..n]), Power(bases[n], ks[n]), Power(q, k), x, y, u', v');
    }
  }

  ghost predicate AreResidues(bases: seq<nat>, ks: seq<nat>, residues: seq<nat>) {
    |bases| == |ks| == |residues| && forall j :: 0 <= j < |bases| ==> residues[j] < Power(bases[j], ks[j])
  }

  ghost predicate Matches(i: nat, bases: seq<nat>, ks: seq<nat>, residues: seq<nat>)
    requires AreResidues(bases, ks, residues)
  {
    forall j :: 0 <= j < |bases| ==> i % Power(bases[j], ks[j]) == residues[j]
  }

  lemma MatchesStep(i: nat, bases: seq<nat>, ks: seq<nat>, residues: seq<nat>)
    requires AreResidues(bases, ks, residues) && bases != []
    ensures var n := |bases| - 1;
            && AreResidues(bases[..n], ks[..n], residues[..n])
            && (Matches(i, bases, ks, residues) <==>
                  Matches(i, bases[..n], ks[..n], residues[..n]) && i % Power(bases[n], ks[n]) == residues[n])
  {
    var n := |bases| - 1;
    if Matches(i, bases[..n], ks[..n], residues[..n]) && i % Power(bases[n], ks[n]) == residues[n] {
      forall j | 0 <= j < |bases| ensures i % Power(bases[j], ks[j]) == residues[j] {
        assert j < n ==> i % Power(bases[..n][j], ks[..n][j]) == residues[..n][j];
      }
    }
  }

  /** The residues of all bases are together one residue of the number of boxes. */
  lemma {:induction false} JointResidue(bases: seq<nat>, ks: seq<nat>, residues: seq<nat>) returns (c: nat)
    requires AreResidues(bases, ks, residues) && DistinctPrimes(bases)
    ensures c < Boxes(bases, ks)
    ensures forall i: nat :: Matches(i, bases, ks, residues) <==> i % Boxes(bases, ks) == c
    decreases |bases|
  {
    hide Power;
    if bases == [] {
      c := 0;
    } else {
      hide Matches;
      var n := |bases| - 1;
      MatchesStep(0, bases, ks, residues);
      var c' := JointResidue(bases[..n], ks[..n], residues[..n]);
      var x, y := BoxesCoprime(bases[..n], ks[..n], bases[n], ks[n]);
      c := PairResidue(Boxes(bases[..n], ks[..n]), c', Power(bases[n], ks[n]), residues[n], x, y);
      forall i: nat ensures Matches(i, bases, ks, residues) <==> i % Boxes(bases, ks) == c {
        MatchesStep(i, bases, ks, residues);
      }
    }
  }

  // ---------- Even sampling of boxes

  ghost predicate AreCells(bases: seq<nat>, ks: seq<nat>, cells: seq<nat>) {
    |bases| == |ks| == |cells| && forall j :: 0 <= j < |bases| ==> bases[j] >= 2 && cells[j] < Power(bases[j], ks[j])
  }

  /** The sample lies in the box: in the right cell of every dimension. */
  ghost predicate InBox(index: nat, bases: seq<nat>, ks: seq<nat>, cells: seq<nat>)
    requires AreCells(bases, ks, cells)
  {
    forall j :: 0 <= j < |bases| ==> FallsIn(index, bases[j], ks[j], cells[j])
  }

  function MirroredDigits(bases: seq<nat>, ks: seq<nat>, cells: seq<nat>): (r: seq<nat>)
    requires |bases| == |ks| == |cells| && forall j :: 0 <= j < |bases| ==> bases[j] >= 2
    ensures |r| == |bases|
  {
    seq(|bases|, j requires 0 <= j < |bases| => Unreversed(cells[j], bases[j], ks[j]))
  }

  lemma BoxIsResidues(index: nat, bases: seq<nat>, ks: seq<nat>, cells: seq<nat>)
    requires AreCells(bases, ks, cells)
    ensures AreResidues(bases, ks, MirroredDigits(bases, ks, cells))
    ensures InBox(index, bases, ks, cells) <==> Matches(index, bases, ks, MirroredDigits(bases, ks, cells))
  {
    hide FallsIn, Unreversed, Power;
    forall j | 0 <= j < |bases|
      ensures Power(bases[j], ks[j]) > 0
      ensures MirroredDigits(bases, ks, cells)[j] < Power(bases[j], ks[j])
      ensures FallsIn(index, bases[j], ks[j], cells[j]) <==> index % Power(bases[j], ks[j]) == MirroredDigits(bases, ks, cells)[j]
    {
      CellIsResidue(index, bases[j], ks[j], cells[j]);
      UnreversedInverse(cells[j], bases[j], ks[j]);
    }
  }

  /**
    Joint even sampling: with different prime bases, any `Boxes` consecutive samples hit every one of
    the `Boxes` boxes exactly once.
  */
  lemma JointStratifiedSampling(start: nat, bases: seq<nat>, ks: seq<nat>, cells: seq<nat>) returns (i: nat)
    requires AreCells(bases, ks, cells) && DistinctPrimes(bases)
    ensures start <= i < start + Boxes(bases, ks) && InBox(i, bases, ks, cells)
    ensures forall other: nat :: start <= other < start + Boxes(bases, ks) && InBox(other, bases, ks, cells) ==> other == i
  {
    hide InBox, Matches, Boxes, MirroredDigits;
    BoxIsResidues(0, bases, ks, cells);
    var c := JointResidue(bases, ks, MirroredDigits(bases, ks, cells));
    i := InWindow(start, Boxes(bases, ks), c);
    BoxIsResidues(i, bases, ks, cells);
    forall other: nat | start <= other < start + Boxes(bases, ks) && InBox(other, bases, ks, cells) ensures other == i {
      BoxIsResidues(other, bases, ks, cells);
    }
  }

  // ---------- Every combination of values

  /** Cells fine enough that each of the values owns at least two of them. */
  ghost predicate FineEnough(bases: seq<nat>, ks: seq<nat>, sizes: seq<nat>) {
    |bases| == |ks| == |sizes| && forall j :: 0 <= j < |bases| ==> bases[j] >= 2 && Power(bases[j], ks[j]) >= 2 * sizes[j]
  }

  function CellsOf(choice: seq<nat>, bases: seq<nat>, ks: seq<nat>, sizes: seq<nat>): (cells: seq<nat>)
    requires FineEnough(bases, ks, sizes) && |choice| == |bases| && forall j :: 0 <= j < |choice| ==> choice[j] < sizes[j]
    ensures |cells| == |bases| && forall j :: 0 <= j < |cells| ==> cells[j] < Power(bases[j], ks[j])
  {
    seq(|bases|, j requires 0 <= j < |bases| => CellOfValue(choice[j], sizes[j], Power(bases[j], ks[j])))
  }

  /** Among any `Boxes` consecutive samples there is one that selects the chosen value in every dimension at once. */
  lemma EveryCombinationIsSampled(start: nat, bases: seq<nat>, ks: seq<nat>, sizes: seq<nat>, choice: seq<nat>) returns (i: nat)
    requires DistinctPrimes(bases) && FineEnough(bases, ks, sizes)
    requires |choice| == |bases| && forall j :: 0 <= j < |choice| ==> choice[j] < sizes[j]
    ensures start <= i < start + Boxes(bases, ks)
    ensures forall j :: 0 <= j < |bases| ==>
              0.0 <= RadicalInverse(i, bases[j]) < 1.0 && ValueIndex(RadicalInverse(i, bases[j]), sizes[j]) == choice[j]
  {
    hide FallsIn, RadicalInverse, ValueIndex, CellOfValue, Power, Boxes;
    var cells := CellsOf(choice, bases, ks, sizes);
    i := JointStratifiedSampling(start, bases, ks, cells);
    forall j | 0 <= j < |bases|
      ensures 0.0 <= RadicalInverse(i, bases[j]) < 1.0 && ValueIndex(RadicalInverse(i, bases[j]), sizes[j]) == choice[j]
    {
      assert FallsIn(i, bases[j], ks[j], cells[j]);
      CellSelectsValue(i, bases[j], ks[j], choice[j], sizes[j]);
    }
  }
}
