/** The nearest-rank percentile, in its C++ form over sorted values and its Python form that
    sorts first. */
module OrderStatistics {

  ghost predicate Ascending(s: seq<int>) {
    forall i, j :: 0 <= i < j < |s| ==> s[i] <= s[j]
  }

  /** The index, as both forms compute it. At percentile 0 the subtraction leaves the unsigned
      range in one and gives -1 in the other, and both then name the last element. */
  function Rank(n: nat, percent: nat): (i: nat)
    requires n > 0
    ensures i < n
  {
    var k := (n * percent + 99) / 100;
    if k == 0 || k > n then n - 1 else k - 1
  }

  /** `percentile_sorted`. */
  function PercentileSorted(s: seq<int>, percent: nat): int {
    if s == [] then 0 else s[Rank(|s|, percent)]
  }

  function Insert(s: seq<int>, x: int): seq<int> {
    if s == [] || s[|s| - 1] <= x then s + [x]
    else Insert(s[..|s| - 1], x) + [s[|s| - 1]]
  }

  /** `sorted(values)`. */
  function Sort(values: seq<int>): seq<int> {
    if values == [] then [] else Insert(Sort(values[..|values| - 1]), values[|values| - 1])
  }

  datatype Outcome = Value(v: int) | IndexError

  /** The Python `percentile`, which fails on an empty list. */
  function Percentile(values: seq<int>, percent: nat): Outcome {
    var ordered := Sort(values);
    if ordered == [] then IndexError else Value(ordered[Rank(|ordered|, percent)])
  }

  lemma LastElement(s: seq<int>)
    requires s != []
    ensures var n := |s| - 1;
            && s == s[..n] + [s[n]]
            && multiset(s) == multiset(s[..n]) + multiset{s[n]}
            && multiset(s[..n]) == multiset(s) - multiset{s[n]}
  {
    assert s == s[..|s| - 1] + [s[|s| - 1]];
  }

  lemma {:induction false} InsertAdds(s: seq<int>, x: int)
    ensures multiset(Insert(s, x)) == multiset(s) + multiset{x}
    decreases |s|
  {
    if s != [] && s[|s| - 1] > x {
      var n := |s| - 1;
      InsertAdds(s[..n], x);
      LastElement(s);
    }
  }

  lemma {:induction false} InsertAscends(s: seq<int>, x: int)
    requires Ascending(s)
    ensures Ascending(Insert(s, x))
    ensures forall y :: y in Insert(s, x) ==> y in s || y == x
    decreases |s|
  {
    if s != [] && s[|s| - 1] > x {
      var n := |s| - 1;
      var front := Insert(s[..n], x);
      InsertAscends(s[..n], x);
      forall i | 0 <= i < |front| ensures front[i] <= s[n] {
        assert front[i] in front;
      }
    }
  }

  lemma {:induction false} SortSorts(values: seq<int>)
    ensures Ascending(Sort(values)) && multiset(Sort(values)) == multiset(values)
    decreases |values|
  {
    if values != [] {
      var n := |values| - 1;
      SortSorts(values[..n]);
      InsertAdds(Sort(values[..n]), values[n]);
      InsertAscends(Sort(values[..n]), values[n]);
      LastElement(values);
    }
  }

  lemma LastIsGreatest(s: seq<int>)
    requires Ascending(s) && s != []
    ensures forall y :: y in multiset(s) ==> y <= s[|s| - 1]
    ensures s[|s| - 1] in multiset(s)
  {
    forall y | y in multiset(s) ensures y <= s[|s| - 1] {
      assert y in s;
      var i :| 0 <= i < |s| && s[i] == y;
    }
  }

  lemma SameGreatest(a: seq<int>, b: seq<int>)
    requires Ascending(a) && Ascending(b) && multiset(a) == multiset(b) && a != [] && b != []
    ensures a[|a| - 1] == b[|b| - 1]
    ensures multiset(a[..|a| - 1]) == multiset(b[..|b| - 1])
  {
    hide Ascending;
    LastIsGreatest(a);
    LastIsGreatest(b);
    LastElement(a);
    LastElement(b);
  }

  /** Sorted lists of the same elements are the same list. */
  lemma {:induction false} SortedUnique(a: seq<int>, b: seq<int>)
    requires Ascending(a) && Ascending(b) && multiset(a) == multiset(b)
    ensures a == b
    decreases |a|
  {
    assert |multiset(a)| == |a| && |multiset(b)| == |b|;
    if a != [] {
      var n := |a| - 1;
      SameGreatest(a, b);
      SortedUnique(a[..n], b[..n]);
      assert a == a[..n] + [a[n]] && b == b[..n] + [b[n]];
    }
  }

  /** On any arrangement of the same data the two forms agree, at every percentile. */
  lemma FormsAgree(values: seq<int>, s: seq<int>, percent: nat)
    requires Ascending(s) && multiset(s) == multiset(values)
    ensures values != [] ==> Percentile(values, percent) == Value(PercentileSorted(s, percent))
    ensures values == [] ==> Percentile(values, percent) == IndexError && PercentileSorted(s, percent) == 0
  {
    SortSorts(values);
    SortedUnique(s, Sort(values));
    assert |multiset(s)| == |multiset(values)|;
  }

  /** How many elements are at most v. */
  function AtMost(s: seq<int>, v: int): (n: nat)
    ensures n <= |s|
  {
    if s == [] then 0 else AtMost(s[..|s| - 1], v) + if s[|s| - 1] <= v then 1 else 0
  }

  lemma {:induction false} AtMostOfAscending(s: seq<int>, v: int, k: nat)
    requires Ascending(s) && k <= |s|
    requires k > 0 ==> s[k - 1] <= v
    requires k < |s| ==> v < s[k]
    ensures AtMost(s, v) == k
    decreases |s|
  {
    if s != [] {
      var n := |s| - 1;
      if k == |s| {
        AtMostOfAscending(s[..n], v, k - 1);
      } else {
        assert v < s[n];
        AtMostOfAscending(s[..n], v, k);
      }
    }
  }

  /** The number of elements at most v of an ascending list, found at its place. */
  lemma {:induction false} Place(s: seq<int>, v: int) returns (k: nat)
    requires Ascending(s)
    ensures k <= |s| && (k > 0 ==> s[k - 1] <= v) && (k < |s| ==> v < s[k])
    ensures AtMost(s, v) == k
  {
    k := |s|;
    while k > 0 && v < s[k - 1]
      invariant 0 <= k <= |s| && (k < |s| ==> v < s[k])
    {
      k := k - 1;
    }
    AtMostOfAscending(s, v, k);
  }

  /** The percentile from 1 to 100 is the least value that at least that share of the data does
      not exceed: a value w reaches the share exactly when it is not below the percentile. */
  lemma NearestRank(s: seq<int>, percent: nat, w: int)
    requires Ascending(s) && s != [] && 1 <= percent <= 100
    ensures PercentileSorted(s, percent) in s
    ensures 100 * AtMost(s, w) >= percent * |s| <==> w >= PercentileSorted(s, percent)
  {
    var n, i := |s|, Rank(|s|, percent);
    RankBounds(n, percent);
    var k := Place(s, w);
    if w >= s[i] {
      assert k > i;
    } else {
      assert k <= i;
    }
  }

  /** The rank is the least whose share of n reaches the percentage. */
  lemma RankBounds(n: nat, percent: nat)
    requires n > 0 && 1 <= percent <= 100
    ensures 100 * (Rank(n, percent) + 1) >= percent * n > 100 * Rank(n, percent)
  {
    assert n * percent >= n;
    assert n * percent <= n * 100;
  }

  /** A greater percentage never gives a smaller value. */
  lemma Monotone(s: seq<int>, p: nat, q: nat)
    requires Ascending(s) && 1 <= p <= q
    ensures PercentileSorted(s, p) <= PercentileSorted(s, q)
  {
    if s != [] {
      var n := |s|;
      assert n * p <= n * q;
      assert n * p >= n;
    }
  }

  /** Percentile 0 is not the least value but the greatest, in both forms. */
  lemma ZeroIsGreatest(s: seq<int>)
    requires Ascending(s) && s != []
    ensures PercentileSorted(s, 0) == s[|s| - 1] == PercentileSorted(s, 100)
    ensures Percentile(s, 0) == Value(s[|s| - 1])
  {
    FormsAgree(s, s, 0);
  }
}
