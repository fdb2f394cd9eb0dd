/**
 * Operations on curves sampled over a time grid: finite sums, the running
 * (cumulative) sum, elementwise arithmetic and the first-index search that the
 * engine performs with whole-array expressions.
 */
module Series {
  import opened Wrappers

  /** A time grid: at least two samples, the first positive, strictly increasing. */
  predicate IsTimeGrid(time: seq<real>)
  {
    && |time| >= 2
    && time[0] > 0.0
    && IsIncreasing(time)
  }

  predicate IsIncreasing(time: seq<real>)
  {
    forall i, j :: 0 <= i < j < |time| ==> time[i] < time[j]
  }

  lemma GridIsPositive(time: seq<real>)
    requires IsTimeGrid(time)
    ensures forall i :: 0 <= i < |time| ==> time[i] > 0.0
  {
    forall i | 0 < i < |time| ensures time[i] > 0.0 {
      assert time[0] < time[i];
    }
  }

  function Id(x: real): real { x }

  /** The sum of f over the elements of s, accumulated from the left. */
  function SumOf<T>(s: seq<T>, f: T -> real): real
  {
    if |s| == 0 then 0.0 else SumOf(s[..|s| - 1], f) + f(s[|s| - 1])
  }

  /** The sum of a sequence of reals. */
  function Sum(s: seq<real>): real
  {
    SumOf(s, Id)
  }

  lemma {:induction false} SumOfConcat<T>(a: seq<T>, b: seq<T>, f: T -> real)
    ensures SumOf(a + b, f) == SumOf(a, f) + SumOf(b, f)
    decreases |b|
  {
    if |b| == 0 {
      assert a + b == a;
    } else {
      assert (a + b)[..|a + b| - 1] == a + b[..|b| - 1];
      SumOfConcat(a, b[..|b| - 1], f);
    }
  }

  lemma SumOfSnoc<T>(s: seq<T>, x: T, f: T -> real)
    ensures SumOf(s + [x], f) == SumOf(s, f) + f(x)
  {
    assert (s + [x])[..|s|] == s;
  }

  lemma SumOfSingleton<T>(x: T, f: T -> real)
    ensures SumOf([x], f) == f(x)
  {
    assert [x][..0] == [];
  }

  /** Taking one element out of a sum subtracts exactly that element's term. */
  lemma {:induction false} SumOfRemove<T>(s: seq<T>, j: nat, f: T -> real)
    requires j < |s|
    ensures SumOf(s, f) == SumOf(s[..j] + s[j + 1..], f) + f(s[j])
    decreases |s|
  {
    var init := s[..|s| - 1];
    if j == |s| - 1 {
      assert s[..j] + s[j + 1..] == init;
    } else {
      SumOfRemove(init, j, f);
      RemoveBeforeLast(s, j);
      SumOfSnoc(init[..j] + init[j + 1..], s[|s| - 1], f);
    }
  }

  /** Removing an element other than the last commutes with dropping the last. */
  lemma RemoveBeforeLast<T>(s: seq<T>, j: nat)
    requires j < |s| - 1
    ensures s[..j] + s[j + 1..] == (s[..|s| - 1][..j] + s[..|s| - 1][j + 1..]) + [s[|s| - 1]]
  {
  }

  /** A sum does not depend on the order of its terms. */
  lemma {:induction false} SumOfPermutation<T>(s: seq<T>, t: seq<T>, f: T -> real)
    requires multiset(s) == multiset(t)
    ensures SumOf(s, f) == SumOf(t, f)
    decreases |s|
  {
    if |s| == 0 {
      assert |t| == |multiset(t)| == 0;
    } else {
      var x := s[|s| - 1];
      var init := s[..|s| - 1];
      assert s == init + [x];
      assert x in multiset(t);
      var j :| 0 <= j < |t| && t[j] == x;
      var rest := t[..j] + t[j + 1..];
      assert t == t[..j] + [x] + t[j + 1..];
      assert multiset(init) == multiset(s) - multiset{x};
      assert multiset(rest) == multiset(t) - multiset{x};
      SumOfPermutation(init, rest, f);
      SumOfRemove(t, j, f);
    }
  }

  lemma SumCons(x: real, s: seq<real>)
    ensures Sum([x] + s) == x + Sum(s)
  {
    SumOfConcat([x], s, Id);
    SumOfSingleton(x, Id);
  }

  lemma PrefixSumsShift(s: seq<real>)
    requires |s| > 0
    ensures forall i :: 0 <= i < |s| ==> Sum(s[..i + 1]) == s[0] + Sum(s[1..][..i])
  {
    forall i | 0 <= i < |s| ensures Sum(s[..i + 1]) == s[0] + Sum(s[1..][..i]) {
      assert s[..i + 1] == [s[0]] + s[1..][..i];
      SumCons(s[0], s[1..][..i]);
    }
  }

  /**
   * A running total started at acc: element i is acc plus the sum of the
   * first i + 1 elements of s.
   */
  function RunningSum(s: seq<real>, acc: real): (r: seq<real>)
    ensures |r| == |s|
    ensures forall i :: 0 <= i < |s| ==> r[i] == acc + Sum(s[..i + 1])
    decreases |s|
  {
    if |s| == 0 then []
    else
      var rest := RunningSum(s[1..], acc + s[0]);
      PrefixSumsShift(s);
      assert s[1..][..0] == [];
      assert forall j :: 0 <= j < |rest| ==> rest[j] == acc + Sum(s[..j + 2]);
      [acc + s[0]] + rest
  }

  /** The cumulative sum of s, as numpy's cumsum computes it. */
  function CumSum(s: seq<real>): (r: seq<real>)
    ensures |r| == |s|
    ensures forall i :: 0 <= i < |s| ==> r[i] == Sum(s[..i + 1])
  {
    RunningSum(s, 0.0)
  }

  /** Over non-negative terms, a longer prefix never has a smaller sum. */
  lemma {:induction false} SumPrefixGrows(s: seq<real>, i: nat, j: nat)
    requires i <= j <= |s|
    requires forall k :: 0 <= k < |s| ==> s[k] >= 0.0
    ensures Sum(s[..i]) <= Sum(s[..j])
    decreases j - i
  {
    if i < j {
      SumPrefixGrows(s, i, j - 1);
      assert s[..j][..j - 1] == s[..j - 1];
    }
  }

  /** Over non-positive terms, a longer prefix never has a larger sum. */
  lemma {:induction false} SumPrefixShrinks(s: seq<real>, i: nat, j: nat)
    requires i <= j <= |s|
    requires forall k :: 0 <= k < |s| ==> s[k] <= 0.0
    ensures Sum(s[..j]) <= Sum(s[..i])
    decreases j - i
  {
    if i < j {
      SumPrefixShrinks(s, i, j - 1);
      assert s[..j][..j - 1] == s[..j - 1];
    }
  }

  /** The sum of a prefix ends with its last term. */
  lemma SumPrefixLast(s: seq<real>, i: nat)
    requires i < |s|
    ensures Sum(s[..i + 1]) == Sum(s[..i]) + s[i]
  {
    assert s[..i + 1][..i] == s[..i];
  }

  /** The constant zero curve of n samples. */
  function Zeros(n: nat): (r: seq<real>)
    ensures |r| == n
    ensures forall i :: 0 <= i < n ==> r[i] == 0.0
  {
    seq(n, _ => 0.0)
  }

  /** Elementwise sum of two curves of equal length. */
  function Add(a: seq<real>, b: seq<real>): (r: seq<real>)
    requires |a| == |b|
    ensures |r| == |a|
    ensures forall i :: 0 <= i < |a| ==> r[i] == a[i] + b[i]
  {
    seq(|a|, i requires 0 <= i < |a| => a[i] + b[i])
  }

  /** i is the least index at which a strictly exceeds b. */
  predicate IsFirstAbove(a: seq<real>, b: seq<real>, i: nat)
    requires |a| == |b|
  {
    && i < |a|
    && a[i] > b[i]
    && forall j :: 0 <= j < i ==> a[j] <= b[j]
  }

  /** The least index k or later at which a strictly exceeds b, if there is one. */
  function FirstAboveFrom(a: seq<real>, b: seq<real>, k: nat): (r: Option<nat>)
    requires |a| == |b| && k <= |a|
    ensures r.Some? ==> k <= r.value < |a| && a[r.value] > b[r.value]
    ensures r.Some? ==> forall j :: k <= j < r.value ==> a[j] <= b[j]
    ensures r.None? <==> forall j :: k <= j < |a| ==> a[j] <= b[j]
    decreases |a| - k
  {
    if k == |a| then None
    else if a[k] > b[k] then Some(k)
    else FirstAboveFrom(a, b, k + 1)
  }

  /**
   * The first index at which a strictly exceeds b, as numpy's
   * argwhere(a > b)[0] finds it; None where argwhere finds nothing.
   */
  function FirstAbove(a: seq<real>, b: seq<real>): (r: Option<nat>)
    requires |a| == |b|
    ensures r.Some? <==> exists i :: 0 <= i < |a| && a[i] > b[i]
    ensures r.Some? ==> IsFirstAbove(a, b, r.value)
  {
    FirstAboveFrom(a, b, 0)
  }

  /** There is at most one first index. */
  lemma FirstAboveUnique(a: seq<real>, b: seq<real>, i: nat, j: nat)
    requires |a| == |b|
    requires IsFirstAbove(a, b, i) && IsFirstAbove(a, b, j)
    ensures i == j
  {
  }
}
