/**
  The Halton bases: the first primes by trial division up to the square root.
  Source: backend/services/optimization_service.py, `first_primes`
*/
module Primes {
  import opened Arithmetic

  ghost predicate IsPrime(n: nat) {
    n >= 2 && forall d :: 2 <= d < n ==> n % d != 0
  }

  /** The source's test: no known prime up to the square root divides the candidate. */
  predicate NoSmallDivisor(candidate: nat, primes: seq<nat>)
    requires forall p :: p in primes ==> p > 0
  {
    forall p | p in primes && p * p <= candidate :: candidate % p != 0
  }

  lemma DivisorProduct(n: nat, d: nat)
    requires d > 0 && n % d == 0
    ensures n == d * (n / d)
  {
  }

  lemma MultipleIsDivisible(q: nat, d: nat)
    requires d > 0
    ensures (d * q) % d == 0
  {
    if q > 0 {
      MultipleIsDivisible(q - 1, d);
      assert d * q == d * (q - 1) + d;
      AddDivisor(d * (q - 1), d);
    }
  }

  lemma AddDivisor(n: nat, d: nat)
    requires d > 0
    ensures (n + d) % d == n % d
  {
    var q, r := n / d, n % d;
    assert n + d == d * (q + 1) + r;
    DivModUnique(n + d, d, q + 1, r);
  }

  lemma DividesTransitive(d: nat, m: nat, n: nat)
    requires d > 0 && m > 0 && m % d == 0 && n % m == 0
    ensures n % d == 0
  {
    DivisorProduct(m, d);
    DivisorProduct(n, m);
    var a, b := m / d, n / m;
    assert n == d * (a * b) by {
      assert n == (d * a) * b;
    }
    MultipleIsDivisible(a * b, d);
  }

  predicate Divides(d: nat, n: nat)
    requires d > 0
  {
    n % d == 0
  }

  lemma DividesItself(n: nat)
    requires n > 0
    ensures Divides(n, n)
  {
    DivModUnique(n, n, 1, 0);
  }

  lemma SmallestDivisor(n: nat) returns (d: nat)
    requires n >= 2
    ensures 2 <= d <= n && Divides(d, n)
    ensures forall e :: 2 <= e < d ==> !Divides(e, n)
  {
    hide Divides;
    DividesItself(n);
    d := 2;
    while !Divides(d, n)
      invariant 2 <= d <= n
      invariant forall e :: 2 <= e < d ==> !Divides(e, n)
      decreases n - d
    {
      d := d + 1;
    }
  }

  lemma SmallestIsPrime(n: nat, d: nat)
    requires d >= 2 && Divides(d, n)
    requires forall e :: 2 <= e < d ==> !Divides(e, n)
    ensures IsPrime(d)
  {
    forall e | 2 <= e < d ensures d % e != 0 {
      if d % e == 0 {
        DividesTransitive(e, d, n);
        assert Divides(e, n);
      }
    }
  }

  /** Every number from 2 on has a prime divisor, and a composite one has such a divisor up to its root. */
  lemma LeastDivisor(n: nat) returns (d: nat)
    requires n >= 2
    ensures 2 <= d <= n && n % d == 0 && IsPrime(d)
    ensures d < n ==> d * d <= n
  {
    d := SmallestDivisor(n);
    SmallestIsPrime(n, d);
    if d < n {
      forall e | 2 <= e < d ensures n % e != 0 {
        assert !Divides(e, n);
      }
      CofactorDivides(n, d);
    }
  }

  lemma CofactorDivides(n: nat, d: nat)
    requires 2 <= d < n && n % d == 0
    requires forall e :: 2 <= e < d ==> n % e != 0
    ensures d * d <= n
  {
    var q := n / d;
    DivisorProduct(n, d);
    MultipleIsDivisible(d, q);
    assert n == q * d;
    assert q >= 2 by {
      ScaleAtLeast(d, 1 - q);
    }
    assert q >= d;
    MulMonotone(d, q, d);
  }

  /** The increasing list of all primes below a bound. */
  ghost predicate PrimesBelow(primes: seq<nat>, bound: nat)
    ensures PrimesBelow(primes, bound) ==> forall p :: p in primes ==> p > 0
  {
    Increasing(primes) && forall p: nat :: p in primes <==> IsPrime(p) && p < bound
  }

  /** Trial division is decisive: testing the known primes up to the root is enough. */
  lemma TrialDivisionDecides(candidate: nat, primes: seq<nat>)
    requires candidate >= 2
    requires PrimesBelow(primes, candidate)
    ensures NoSmallDivisor(candidate, primes) <==> IsPrime(candidate)
  {
    if NoSmallDivisor(candidate, primes) {
      var d := LeastDivisor(candidate);
    }
  }

  function Factorial(n: nat): nat {
    if n == 0 then 1 else n * Factorial(n - 1)
  }

  lemma {:induction false} FactorialDivisible(n: nat, d: nat)
    requires 1 <= d <= n
    ensures Factorial(n) % d == 0
  {
    if d == n {
      MultipleIsDivisible(Factorial(n - 1), n);
    } else {
      FactorialDivisible(n - 1, d);
      DivisorProduct(Factorial(n - 1), d);
      var q := Factorial(n - 1) / d;
      assert Factorial(n) == d * (n * q) by {
        assert n * (d * q) == d * (n * q);
      }
      MultipleIsDivisible(n * q, d);
    }
  }

  lemma {:induction false} FactorialPositive(n: nat)
    ensures Factorial(n) >= 1
  {
    if n > 0 {
      FactorialPositive(n - 1);
      MulMonotone(1, n, Factorial(n - 1));
    }
  }

  /** There is always a larger prime, so the search for the next one ends. */
  lemma PrimeFrom(n: nat) returns (p: nat)
    ensures p >= n && IsPrime(p)
  {
    FactorialPositive(n);
    var f := Factorial(n);
    p := LeastDivisor(f + 1);
    if p < n {
      FactorialDivisible(n, p);
      DivisorProduct(f, p);
      assert f + 1 == p * (f / p) + 1;
      DivModUnique(f + 1, p, f / p, 1);
    }
  }

  ghost predicate Increasing(s: seq<nat>) {
    forall i, j :: 0 <= i < j < |s| ==> s[i] < s[j]
  }

  /** Exactly the first primes in order: primes, increasing, and none skipped. */
  ghost predicate FirstPrimesOf(primes: seq<nat>) {
    && Increasing(primes)
    && (forall i :: 0 <= i < |primes| ==> IsPrime(primes[i]))
    && (forall i, p :: 0 <= i < |primes| && IsPrime(p) && p <= primes[i] ==> p in primes)
  }

  lemma BelowNext(primes: seq<nat>, candidate: nat)
    requires PrimesBelow(primes, candidate)
    ensures PrimesBelow(if IsPrime(candidate) then primes + [candidate] else primes, candidate + 1)
  {
    var after := if IsPrime(candidate) then primes + [candidate] else primes;
    forall i | 0 <= i < |primes| ensures primes[i] < candidate {
      assert primes[i] in primes;
    }
    forall p: nat ensures p in after <==> p in primes || (p == candidate && IsPrime(p)) {
    }
  }

  lemma BelowMeansFirst(primes: seq<nat>, bound: nat)
    requires PrimesBelow(primes, bound)
    ensures FirstPrimesOf(primes)
  {
    forall i | 0 <= i < |primes| ensures IsPrime(primes[i]) && primes[i] < bound {
      assert primes[i] in primes;
    }
  }

  /** There is only one list of the first primes of each length. */
  lemma {:induction false} FirstPrimesAreUnique(p: seq<nat>, q: seq<nat>)
    requires FirstPrimesOf(p) && FirstPrimesOf(q) && |p| == |q|
    ensures p == q
  {
    if p != [] {
      var n := |p| - 1;
      PrefixOfFirstPrimes(p);
      PrefixOfFirstPrimes(q);
      FirstPrimesAreUnique(p[..n], q[..n]);
      LastNotSmaller(p, q);
      LastNotSmaller(q, p);
      assert p == p[..n] + [p[n]] && q == q[..n] + [q[n]];
    }
  }

  lemma PrefixOfFirstPrimes(p: seq<nat>)
    requires FirstPrimesOf(p) && p != []
    ensures FirstPrimesOf(p[..|p| - 1])
  {
    var n := |p| - 1;
    forall i, d | 0 <= i < n && IsPrime(d) && d <= p[i] ensures d in p[..n] {
      assert d in p;
      var j :| 0 <= j < |p| && p[j] == d;
      assert p[i] < p[n];
      assert p[..n][j] == d;
    }
  }

  lemma LastNotSmaller(p: seq<nat>, q: seq<nat>)
    requires FirstPrimesOf(p) && FirstPrimesOf(q) && |p| == |q| > 0 && p[..|p| - 1] == q[..|q| - 1]
    ensures p[|p| - 1] >= q[|q| - 1]
  {
    var n := |p| - 1;
    forall k | 0 <= k < n ensures p[k] == q[k] {
      assert p[..n][k] == q[..n][k];
    }
  }

  method FirstPrimes(count: nat) returns (primes: seq<nat>)
    ensures |primes| == count && FirstPrimesOf(primes)
  {
    primes := [];
    var candidate := 2;
    ghost var next := PrimeFrom(candidate);
    while |primes| < count
      invariant 2 <= candidate <= next && IsPrime(next)
      invariant |primes| <= count && PrimesBelow(primes, candidate)
      decreases count - |primes|, next - candidate
    {
      TrialDivisionDecides(candidate, primes);
      BelowNext(primes, candidate);
      if NoSmallDivisor(candidate, primes) {
        primes := primes + [candidate];
        next := PrimeFrom(candidate + 1);
      }
      candidate := candidate + 1;
    }
    BelowMeansFirst(primes, candidate);
  }
}
