/**
  The stable sort that the source calls as `sorted` and `Array.sort`, and what
  its callers need of it.
*/
module StableSort {

  ghost predicate TotalPreorder<T(!new)>(leq: (T, T) -> bool) {
    && (forall x, y :: leq(x, y) || leq(y, x))
    && (forall x, y, z :: leq(x, y) && leq(y, z) ==> leq(x, z))
  }

  ghost predicate Sorted<T>(s: seq<T>, leq: (T, T) -> bool) {
    forall i, j :: 0 <= i < j < |s| ==> leq(s[i], s[j])
  }

  /** `x` goes behind everything that is not after it. */
  function Insert<T>(s: seq<T>, x: T, leq: (T, T) -> bool): seq<T> {
    if s == [] then [x]
    else
      var n := |s| - 1;
      if leq(s[n], x) then s + [x] else Insert(s[..n], x, leq) + [s[n]]
  }

  function SortBy<T>(s: seq<T>, leq: (T, T) -> bool): seq<T> {
    if s == [] then [] else Insert(SortBy(s[..|s| - 1], leq), s[|s| - 1], leq)
  }

  lemma {:induction false} InsertMultiset<T>(s: seq<T>, x: T, leq: (T, T) -> bool)
    ensures multiset(Insert(s, x, leq)) == multiset(s) + multiset{x}
    ensures |Insert(s, x, leq)| == |s| + 1
  {
    if s != [] {
      var n := |s| - 1;
      InsertMultiset(s[..n], x, leq);
      assert s == s[..n] + [s[n]];
    }
  }

  lemma {:induction false} InsertSorted<T(!new)>(s: seq<T>, x: T, leq: (T, T) -> bool)
    requires TotalPreorder(leq) && Sorted(s, leq)
    ensures Sorted(Insert(s, x, leq), leq)
  {
    if s != [] && !leq(s[|s| - 1], x) {
      var n := |s| - 1;
      InsertSorted(s[..n], x, leq);
      var t := Insert(s[..n], x, leq);
      InsertMultiset(s[..n], x, leq);
      forall i | 0 <= i < |t| ensures leq(t[i], s[n]) {
        assert t[i] in multiset(t);
        assert t[i] == x || t[i] in s[..n];
      }
    }
  }

  /** Sorting permutes, and orders. */
  lemma {:induction false} SortIsSorted<T(!new)>(s: seq<T>, leq: (T, T) -> bool)
    requires TotalPreorder(leq)
    ensures Sorted(SortBy(s, leq), leq)
    ensures multiset(SortBy(s, leq)) == multiset(s)
    ensures |SortBy(s, leq)| == |s|
  {
    if s != [] {
      var rest, x := s[..|s| - 1], s[|s| - 1];
      SortIsSorted(rest, leq);
      InsertSorted(SortBy(rest, leq), x, leq);
      InsertMultiset(SortBy(rest, leq), x, leq);
      assert s == rest + [x];
    }
  }

  /** The first of the least: no element is below it and every earlier one is above it. */
  ghost predicate IsFirstLeast<T>(s: seq<T>, i: nat, leq: (T, T) -> bool)
    requires i < |s|
  {
    && (forall j :: 0 <= j < |s| ==> leq(s[i], s[j]))
    && (forall j :: 0 <= j < i ==> !leq(s[j], s[i]))
  }

  /** Stability, as far as the front of the list shows it: the first of the least elements comes first. */
  lemma {:induction false} SortStartsWithFirstLeast<T(!new)>(s: seq<T>, leq: (T, T) -> bool, i: nat)
    requires TotalPreorder(leq) && i < |s| && IsFirstLeast(s, i, leq)
    ensures SortBy(s, leq) != [] && SortBy(s, leq)[0] == s[i]
  {
    var rest, x := s[..|s| - 1], s[|s| - 1];
    SortIsSorted(rest, leq);
    if i == |s| - 1 {
      forall j | 0 <= j < |rest| ensures !leq(SortBy(rest, leq)[j], x) {
        assert SortBy(rest, leq)[j] in multiset(SortBy(rest, leq));
        assert SortBy(rest, leq)[j] in rest;
      }
      InsertInFront(SortBy(rest, leq), x, leq);
    } else {
      SortStartsWithFirstLeast(rest, leq, i);
      InsertBehind(SortBy(rest, leq), x, leq);
    }
  }

  lemma {:induction false} InsertInFront<T(!new)>(s: seq<T>, x: T, leq: (T, T) -> bool)
    requires forall j :: 0 <= j < |s| ==> !leq(s[j], x)
    ensures Insert(s, x, leq) == [x] + s
  {
    if s != [] {
      var n := |s| - 1;
      InsertInFront(s[..n], x, leq);
      assert s == s[..n] + [s[n]];
    }
  }

  lemma {:induction false} InsertBehind<T(!new)>(s: seq<T>, x: T, leq: (T, T) -> bool)
    requires s != [] && leq(s[0], x)
    ensures Insert(s, x, leq) != [] && Insert(s, x, leq)[0] == s[0]
  {
    var n := |s| - 1;
    if n > 0 && !leq(s[n], x) {
      InsertBehind(s[..n], x, leq);
    }
  }

  // ---------- Counting

  function CountIf<T>(s: seq<T>, p: T -> bool): nat {
    if s == [] then 0 else CountIf(s[..|s| - 1], p) + if p(s[|s| - 1]) then 1 else 0
  }

  lemma {:induction false} InsertCount<T>(s: seq<T>, x: T, leq: (T, T) -> bool, p: T -> bool)
    ensures CountIf(Insert(s, x, leq), p) == CountIf(s, p) + if p(x) then 1 else 0
  {
    if s == [] {
      assert [x][..0] == [];
    } else {
      var n := |s| - 1;
      if leq(s[n], x) {
        assert (s + [x])[..|s|] == s;
      } else {
        InsertCount(s[..n], x, leq, p);
        var t := Insert(s[..n], x, leq);
        assert (t + [s[n]])[..|t|] == t;
      }
    }
  }

  /** Sorting changes no count. */
  lemma {:induction false} SortCount<T>(s: seq<T>, leq: (T, T) -> bool, p: T -> bool)
    ensures CountIf(SortBy(s, leq), p) == CountIf(s, p)
  {
    if s != [] {
      SortCount(s[..|s| - 1], leq, p);
      InsertCount(SortBy(s[..|s| - 1], leq), s[|s| - 1], leq, p);
    }
  }

  lemma {:induction false} CountBounds<T>(s: seq<T>, p: T -> bool, k: nat)
    requires k <= |s|
    ensures (forall i :: 0 <= i < k ==> p(s[i])) ==> CountIf(s, p) >= k
    ensures (forall i :: k <= i < |s| ==> !p(s[i])) ==> CountIf(s, p) <= k
    ensures CountIf(s, p) <= |s|
  {
    if s != [] {
      var n := |s| - 1;
      CountBounds(s[..n], p, if k <= n then k else n);
    }
  }

  /** Tests that agree on a list count the same. */
  lemma {:induction false} CountSame<T>(s: seq<T>, p: T -> bool, q: T -> bool)
    requires forall i :: 0 <= i < |s| ==> p(s[i]) == q(s[i])
    ensures CountIf(s, p) == CountIf(s, q)
  {
    if s != [] {
      CountSame(s[..|s| - 1], p, q);
    }
  }
}
