/** Ascending sort of integer keys, and facts about sorted sequences of keys. */
module Sorting {
  import opened Sequences

  predicate Sorted(s: seq<int>) {
    forall i, j :: 0 <= i < j < |s| ==> s[i] <= s[j]
  }

  /** Every adjacent difference is exactly 1. */
  predicate StepsOfOne(s: seq<int>) {
    forall i :: 1 <= i < |s| ==> s[i] - s[i - 1] == 1
  }

  function Insert(x: int, s: seq<int>): (r: seq<int>)
    requires Sorted(s)
    ensures Sorted(r)
    ensures multiset(r) == multiset(s) + multiset{x}
    ensures |r| == |s| + 1
  {
    if s == [] || x <= s[0] then [x] + s
    else
      var t := Insert(x, s[1..]);
      assert s == [s[0]] + s[1..];
      assert forall k :: 0 <= k < |s[1..]| ==> s[0] <= s[1..][k] by {
        forall k | 0 <= k < |s[1..]| ensures s[0] <= s[1..][k] {
          assert s[1..][k] == s[k + 1];
        }
      }
      BoundedBelow(s[0], x, s[1..], t);
      [s[0]] + t
  }

  /** A lower bound of `s` and `x` bounds every key of a permutation of `s` plus `x`. */
  lemma BoundedBelow(lo: int, x: int, s: seq<int>, t: seq<int>)
    requires lo <= x && forall k :: 0 <= k < |s| ==> lo <= s[k]
    requires multiset(t) == multiset(s) + multiset{x}
    ensures forall k :: 0 <= k < |t| ==> lo <= t[k]
  {
    forall k | 0 <= k < |t| ensures lo <= t[k] {
      assert t[k] in multiset(t);
      if t[k] != x {
        assert t[k] in multiset(s);
        var m :| 0 <= m < |s| && s[m] == t[k];
      }
    }
  }

  /** The keys of `s` in ascending order. */
  function Sort(s: seq<int>): (r: seq<int>)
    ensures Sorted(r)
    ensures multiset(r) == multiset(s)
    ensures |r| == |s|
  {
    if s == [] then []
    else
      assert s == [s[0]] + s[1..];
      Insert(s[0], Sort(s[1..]))
  }

  function Min(s: seq<int>): (m: int)
    requires |s| > 0
    ensures m in s && forall x :: x in s ==> m <= x
  {
    if |s| == 1 then s[0]
    else
      var m := Min(s[1..]);
      assert forall x :: x in s ==> x == s[0] || x in s[1..];
      if s[0] <= m then s[0] else m
  }

  function Max(s: seq<int>): (m: int)
    requires |s| > 0
    ensures m in s && forall x :: x in s ==> x <= m
  {
    if |s| == 1 then s[0]
    else
      var m := Max(s[1..]);
      assert forall x :: x in s ==> x == s[0] || x in s[1..];
      if s[0] >= m then s[0] else m
  }

  /** The ends of a sorted permutation are the minimum and the maximum. */
  lemma SortedEnds(s: seq<int>, v: seq<int>)
    requires Sorted(s) && multiset(s) == multiset(v) && |v| > 0
    ensures |s| == |v|
    ensures s[0] == Min(v) && s[|s| - 1] == Max(v)
  {
    assert |s| == |multiset(s)| == |multiset(v)| == |v|;
    assert forall x :: x in s <==> x in v by {
      forall x ensures x in s <==> x in v {
        assert x in s <==> x in multiset(s);
        assert x in v <==> x in multiset(v);
      }
    }
    var lo, hi := Min(v), Max(v);
    assert lo in s && hi in s;
    assert s[0] in v && s[|s| - 1] in v;
  }

  /** In a sorted sequence without repeats, keys i apart differ by at least i. */
  lemma {:induction false} DistinctSortedGap(s: seq<int>, i: nat, j: nat)
    requires Sorted(s) && Distinct(s) && i <= j < |s|
    ensures s[j] - s[i] >= j - i
  {
    if i < j {
      DistinctSortedGap(s, i, j - 1);
      assert s[j - 1] <= s[j] && s[j - 1] != s[j];
    }
  }

  /** A sorted sequence of keys runs in steps of one exactly when it has no repeats and its
      largest key is |s| - 1 above its smallest. */
  lemma {:induction false} StepsOfOneIff(s: seq<int>)
    requires Sorted(s)
    ensures StepsOfOne(s) <==> Distinct(s) && (|s| == 0 || s[|s| - 1] - s[0] == |s| - 1)
  {
    if StepsOfOne(s) {
      StepsOfOneOffsets(s, |s|);
    }
    if Distinct(s) && |s| > 0 && s[|s| - 1] - s[0] == |s| - 1 {
      forall i | 1 <= i < |s| ensures s[i] - s[i - 1] == 1 {
        DistinctSortedGap(s, 0, i - 1);
        DistinctSortedGap(s, i, |s| - 1);
      }
    }
  }

  lemma {:induction false} StepsOfOneOffsets(s: seq<int>, n: nat)
    requires StepsOfOne(s) && n <= |s|
    ensures forall k :: 0 <= k < n ==> s[k] == s[0] + k
    ensures Distinct(s[..n])
  {
    if n > 0 {
      StepsOfOneOffsets(s, n - 1);
      if n > 1 { assert s[n - 1] - s[n - 2] == 1; }
      forall a, b | 0 <= a < b < n ensures s[..n][a] != s[..n][b] {
        assert s[a] == s[0] + a && s[b] == s[0] + b;
      }
    }
    if n == |s| { assert s[..n] == s; }
  }
}
