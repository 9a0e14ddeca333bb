/** Small facts about products and quotients that the other modules call by name. */
module Arithmetic {

  lemma ScaleAtLeast(d: nat, x: int)
    ensures x >= 1 ==> d * x >= d
  {
    if x >= 1 {
      assert d * x == d + d * (x - 1);
    }
  }

  /** Quotient and remainder are determined by the equation that defines them. */
  lemma DivModUnique(n: int, d: nat, q: int, r: int)
    requires d > 0 && n == d * q + r && 0 <= r < d
    ensures n / d == q && n % d == r
  {
    var q', r' := n / d, n % d;
    assert n == d * q' + r';
    assert d * (q - q') == r' - r;
    ScaleAtLeast(d, q - q');
    ScaleAtLeast(d, q' - q);
  }

  lemma DivMod(n: int, d: nat)
    requires d > 0
    ensures n == d * (n / d) + n % d && 0 <= n % d < d
  {
  }

  lemma MulMonotone(a: int, b: int, c: nat)
    requires a <= b
    ensures a * c <= b * c && c * a <= c * b
  {
    assert 0 <= (b - a) * c;
  }

  lemma Distribute(a: int, b: int, c: int)
    ensures (a + b) * c == a * c + b * c && c * (a + b) == c * a + c * b
  {
  }

  lemma Regroup(a: int, b: int, c: int)
    ensures (a * b) * c == a * (b * c)
  {
  }

  /** A digit in front of a smaller number stays below the next power. */
  lemma DigitBound(digit: nat, base: nat, low: nat, p: nat)
    requires digit < base && low < p
    ensures digit * p + low < base * p
  {
    MulMonotone(digit + 1, base, p);
    Distribute(digit, 1, p);
  }

  /** A number below `base * p` has its leading digit below `base`. */
  lemma LeadingDigit(n: nat, base: nat, p: nat)
    requires p > 0 && n < base * p
    ensures n / p < base && n == p * (n / p) + n % p
  {
    DivMod(n, p);
    if n / p >= base {
      MulMonotone(base, n / p, p);
    }
  }

  /** Remainder by a product: first by one factor, then by the other. */
  lemma ModProduct(n: nat, base: nat, p: nat)
    requires base > 0 && p > 0
    ensures base * p > 0
    ensures n % (base * p) == n % base + base * ((n / base) % p)
  {
    var q, d := n / base, n % base;
    var m, low := q / p, q % p;
    DivMod(n, base);
    DivMod(q, p);
    Distribute(p * m, low, base);
    Regroup(base, p, m);
    ScaleAtLeast(base, p);
    DigitBound(low, p, d, base);
    DivModUnique(n, base * p, m, d + base * low);
  }

  function Power(base: nat, k: nat): nat {
    if k == 0 then 1 else base * Power(base, k - 1)
  }

  lemma PowerStep(base: nat, k: nat)
    ensures Power(base, k) == if k == 0 then 1 else base * Power(base, k - 1)
  {
  }

  lemma {:induction false} PowerPositive(base: nat, k: nat)
    requires base >= 1
    ensures Power(base, k) >= 1
  {
    if k > 0 {
      PowerPositive(base, k - 1);
      MulMonotone(1, base, Power(base, k - 1));
    }
  }

  lemma {:induction false} PowerExceeds(base: nat, k: nat)
    requires base >= 2
    ensures Power(base, k) > k
  {
    if k > 0 {
      PowerExceeds(base, k - 1);
      MulMonotone(2, base, Power(base, k - 1));
    }
  }

  lemma CancelFactor(a: real, b: real, c: real)
    requires c > 0.0
    ensures a * c <= b * c ==> a <= b
    ensures a * c < b * c ==> a < b
  {
    assert b - a < 0.0 ==> (b - a) * c < 0.0;
    assert (b - a) * c == b * c - a * c;
  }

  lemma RealDistribute(a: real, b: real, c: real)
    ensures (a + b) * c == a * c + b * c && (a - b) * c == a * c - b * c
  {
  }

  lemma RealMonotone(a: real, b: real, c: real)
    requires a <= b && c >= 0.0
    ensures a * c <= b * c
  {
    assert (b - a) * c >= 0.0;
  }

  lemma DivideBack(x: real, b: real)
    requires b != 0.0
    ensures (x / b) * b == x
  {
  }

  lemma CastProduct(a: int, b: int)
    ensures (a * b) as real == a as real * b as real
  {
  }
}
