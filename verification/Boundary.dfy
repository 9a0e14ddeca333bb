/**
  Sums of an antisymmetric weight over directed edges. Read with different
  weights, one equation between such sums says that areas agree, that every
  edge is matched by its reverse, or that a shape is closed.
*/
module Boundary {
  import opened Arithmetic

  datatype Tri = Tri(a: nat, b: nat, c: nat)

  ghost predicate Antisymmetric<T(!new)>(f: (T, T) -> real) {
    forall u, v :: f(u, v) == -f(v, u)
  }

  /** The weight of the open path through `s`. */
  function PathSum<T>(f: (T, T) -> real, s: seq<T>): real {
    if |s| < 2 then 0.0 else f(s[0], s[1]) + PathSum(f, s[1..])
  }

  /** The weight of the closed path through `s` and back to its start. */
  function CycleSum<T>(f: (T, T) -> real, s: seq<T>): real {
    if s == [] then 0.0 else PathSum(f, s) + f(s[|s| - 1], s[0])
  }

  /** The weight of all directed edges of a list of triangles. */
  function TriSum(f: (nat, nat) -> real, ts: seq<Tri>): real {
    if ts == [] then 0.0 else TriWeight(f, ts[0]) + TriSum(f, ts[1..])
  }

  function TriWeight(f: (nat, nat) -> real, t: Tri): real {
    f(t.a, t.b) + f(t.b, t.c) + f(t.c, t.a)
  }

  lemma {:induction false} PathSumConcat<T>(f: (T, T) -> real, s: seq<T>, t: seq<T>)
    requires s != [] && t != []
    ensures PathSum(f, s + t) == PathSum(f, s) + f(s[|s| - 1], t[0]) + PathSum(f, t)
  {
    if |s| == 1 {
      assert (s + t)[1..] == t;
    } else {
      assert (s + t)[1..] == s[1..] + t;
      PathSumConcat(f, s[1..], t);
    }
  }

  lemma {:induction false} TriSumConcat(f: (nat, nat) -> real, s: seq<Tri>, t: seq<Tri>)
    ensures TriSum(f, s + t) == TriSum(f, s) + TriSum(f, t)
  {
    if s == [] {
      assert s + t == t;
    } else {
      assert (s + t)[1..] == s[1..] + t;
      TriSumConcat(f, s[1..], t);
    }
  }

  /** The index after a step round a cycle of `n`; the source writes `k % n`. */
  function Wrap(k: nat, n: nat): (w: nat)
    requires k <= n && n > 0
    ensures w < n
  {
    if k == n then 0 else k
  }

  lemma WrapIsMod(k: nat, n: nat)
    requires k <= n && n > 0
    ensures Wrap(k, n) == k % n
  {
    DivModUnique(k, n, if k == n then 1 else 0, Wrap(k, n));
  }

  /** The first `k` edges of the closed path, the way a loop over indices adds them up. */
  function CycleTerms<T>(f: (T, T) -> real, s: seq<T>, k: nat): real
    requires k <= |s|
  {
    if k == 0 then 0.0 else CycleTerms(f, s, k - 1) + f(s[k - 1], s[Wrap(k, |s|)])
  }

  lemma {:induction false} TermsArePath<T>(f: (T, T) -> real, s: seq<T>, k: nat)
    requires k < |s|
    ensures CycleTerms(f, s, k) == PathSum(f, s[..k + 1])
  {
    if k > 0 {
      TermsArePath(f, s, k - 1);
      assert s[..k + 1] == s[..k] + [s[k]];
      PathSumConcat(f, s[..k], [s[k]]);
    }
  }

  lemma TermsAreCycle<T>(f: (T, T) -> real, s: seq<T>)
    ensures CycleTerms(f, s, |s|) == CycleSum(f, s)
  {
    if s != [] {
      TermsArePath(f, s, |s| - 1);
      assert s[..|s|] == s;
    }
  }

  function Reverse<T>(s: seq<T>): (r: seq<T>)
    ensures |r| == |s|
    ensures forall i :: 0 <= i < |s| ==> r[i] == s[|s| - 1 - i]
  {
    if s == [] then [] else Reverse(s[1..]) + [s[0]]
  }

  lemma {:induction false} PathSumReverse<T(!new)>(f: (T, T) -> real, s: seq<T>)
    requires Antisymmetric(f)
    ensures PathSum(f, Reverse(s)) == -PathSum(f, s)
  {
    if |s| >= 2 {
      PathSumReverse(f, s[1..]);
      PathSumConcat(f, Reverse(s[1..]), [s[0]]);
      assert f(s[1], s[0]) == -f(s[0], s[1]);
    } else if |s| == 1 {
      assert Reverse(s) == s;
    }
  }

  /** Walking the other way round negates the weight. */
  lemma CycleSumReverse<T(!new)>(f: (T, T) -> real, s: seq<T>)
    requires Antisymmetric(f)
    ensures CycleSum(f, Reverse(s)) == -CycleSum(f, s)
  {
    PathSumReverse(f, s);
    if s != [] {
      assert f(s[0], s[|s| - 1]) == -f(s[|s| - 1], s[0]);
    }
  }

  function RemoveAt<T>(s: seq<T>, i: nat): seq<T>
    requires i < |s|
  {
    s[..i] + s[i + 1..]
  }

  function Before<T>(s: seq<T>, i: nat): T
    requires i < |s|
  {
    s[if i == 0 then |s| - 1 else i - 1]
  }

  function After<T>(s: seq<T>, i: nat): T
    requires i < |s|
  {
    s[Wrap(i + 1, |s|)]
  }

  /** Cutting one corner off a closed path takes exactly that corner's triangle away. */
  lemma CutCorner<T(!new)>(f: (T, T) -> real, s: seq<T>, i: nat)
    requires Antisymmetric(f) && i < |s| && |s| >= 3
    ensures CycleSum(f, s) ==
            f(Before(s, i), s[i]) + f(s[i], After(s, i)) + f(After(s, i), Before(s, i)) + CycleSum(f, RemoveAt(s, i))
  {
    var left, right := s[..i], s[i + 1..];
    assert f(After(s, i), Before(s, i)) == -f(Before(s, i), After(s, i));
    if i == 0 {
      assert RemoveAt(s, i) == right;
      PathSumSplit(f, s, 1);
      assert s[..1] == [s[0]];
    } else if i == |s| - 1 {
      assert RemoveAt(s, i) == left;
      PathSumSplit(f, s, i);
      assert s[i..] == [s[i]];
    } else {
      PathSumSplit(f, s, i);
      PathSumSplit(f, s[i..], 1);
      assert s[i..][..1] == [s[i]] && s[i..][1..] == right;
      PathSumConcat(f, left, right);
    }
  }

  lemma PathSumSplit<T>(f: (T, T) -> real, s: seq<T>, i: nat)
    requires 0 < i < |s|
    ensures PathSum(f, s) == PathSum(f, s[..i]) + f(s[i - 1], s[i]) + PathSum(f, s[i..])
  {
    assert s == s[..i] + s[i..];
    PathSumConcat(f, s[..i], s[i..]);
  }

  function Iota(n: nat): (s: seq<nat>)
    ensures |s| == n && forall i :: 0 <= i < n ==> s[i] == i
  {
    seq(n, i => i)
  }

  /** A weight on indices that looks up the indexed items weighs the index cycle like the item cycle. */
  lemma {:induction false} TermsThroughIndices<T(!new)>(f: (T, T) -> real, g: (nat, nat) -> real, s: seq<T>, k: nat)
    requires k <= |s|
    requires forall u: nat, v: nat :: u < |s| && v < |s| ==> g(u, v) == f(s[u], s[v])
    ensures CycleTerms(g, Iota(|s|), k) == CycleTerms(f, s, k)
  {
    if k > 0 {
      TermsThroughIndices(f, g, s, k - 1);
    }
  }

  lemma CycleThroughIndices<T(!new)>(f: (T, T) -> real, g: (nat, nat) -> real, s: seq<T>)
    requires forall u: nat, v: nat :: u < |s| && v < |s| ==> g(u, v) == f(s[u], s[v])
    ensures CycleSum(g, Iota(|s|)) == CycleSum(f, s)
  {
    TermsThroughIndices(f, g, s, |s|);
    TermsAreCycle(f, s);
    TermsAreCycle(g, Iota(|s|));
  }

  // ---------- Counting edges

  function EdgesOf(t: Tri, u: nat, v: nat): nat {
    (if t.a == u && t.b == v then 1 else 0) +
    (if t.b == u && t.c == v then 1 else 0) +
    (if t.c == u && t.a == v then 1 else 0)
  }

  /** How often the directed edge from `u` to `v` occurs. */
  function EdgeCount(ts: seq<Tri>, u: nat, v: nat): nat {
    if ts == [] then 0 else EdgesOf(ts[0], u, v) + EdgeCount(ts[1..], u, v)
  }

  /** The weight that counts the edge from `u` to `v` and discounts its reverse. */
  function EdgeWeight(u: nat, v: nat): (nat, nat) -> real {
    (x, y) => (if x == u && y == v then 1.0 else 0.0) - (if x == v && y == u then 1.0 else 0.0)
  }

  lemma {:induction false} EdgeWeightCounts(ts: seq<Tri>, u: nat, v: nat)
    ensures Antisymmetric(EdgeWeight(u, v))
    ensures TriSum(EdgeWeight(u, v), ts) == (EdgeCount(ts, u, v) - EdgeCount(ts, v, u)) as real
  {
    if ts != [] {
      EdgeWeightCounts(ts[1..], u, v);
    }
  }
}
